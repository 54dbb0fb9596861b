/** Which released directory the gates pick as the baseline, and what the load rule is worth when that is not
    the release before (tools/sdk_check.py). */
module Baseline {
  import opened AbiHistory

  // ---------------------------------------------------------------------- order of strings

  /** The order the release directories are sorted by. */
  predicate StringLess(a: string, b: string) {
    b != "" && (a == "" || a[0] < b[0] || (a[0] == b[0] && StringLess(a[1..], b[1..])))
  }

  lemma {:induction false} CommonPrefix(p: string, x: string, y: string)
    ensures StringLess(p + x, p + y) <==> StringLess(x, y)
  {
    if p == "" {
      assert p + x == x && p + y == y;
    } else {
      assert (p + x)[1..] == p[1..] + x && (p + y)[1..] == p[1..] + y;
      CommonPrefix(p[1..], x, y);
    }
  }

  lemma {:induction false} StringTotal(a: string, b: string)
    ensures StringLess(a, b) || a == b || StringLess(b, a)
  {
    if a != "" && b != "" && a[0] == b[0] {
      StringTotal(a[1..], b[1..]);
      assert a == [a[0]] + a[1..] && b == [b[0]] + b[1..];
    }
  }

  lemma {:induction false} StringTransitive(a: string, b: string, c: string)
    requires StringLess(a, b) && StringLess(b, c)
    ensures StringLess(a, c)
  {
    if a != "" && a[0] == b[0] && b[0] == c[0] { StringTransitive(a[1..], b[1..], c[1..]); }
  }

  lemma {:induction false} StringIrreflexive(a: string)
    ensures !StringLess(a, a)
  {
    if a != "" { StringIrreflexive(a[1..]); }
  }

  // ------------------------------------------------------------------------------ decimals

  function Pow10(k: nat): (r: nat)
    ensures 1 <= r
  {
    if k == 0 then 1 else 10 * Pow10(k - 1)
  }

  function Digit(d: nat): char
    requires d < 10
  {
    '0' + d as char
  }

  function Dec(n: nat): (s: string)
    ensures 1 <= |s| && Digits(s)
  {
    if n < 10 then [Digit(n)] else Dec(n / 10) + [Digit(n % 10)]
  }

  predicate Digits(s: string) { forall k | 0 <= k < |s| :: '0' <= s[k] <= '9' }

  predicate Nines(s: string) { forall k | 0 <= k < |s| :: s[k] == '9' }

  function Value(c: char): nat { if '0' <= c <= '9' then (c - '0') as nat else 0 }

  /** The number a string of digits stands for. */
  function Val(s: string): nat { if s == "" then 0 else Value(s[0]) * Pow10(|s| - 1) + Val(s[1..]) }

  lemma {:induction false} ValBound(s: string)
    ensures Val(s) < Pow10(|s|)
  {
    if s != "" {
      ValBound(s[1..]);
      DigitTimes(Value(s[0]), Pow10(|s| - 1));
    }
  }

  lemma DigitTimes(d: nat, p: nat)
    requires d < 10
    ensures d * p + p <= 10 * p
  {
  }

  lemma {:induction false} ValSnoc(s: string, c: char)
    ensures Val(s + [c]) == 10 * Val(s) + Value(c)
  {
    if s == "" {
      assert s + [c] == [c];
    } else {
      assert (s + [c])[1..] == s[1..] + [c];
      ValSnoc(s[1..], c);
      assert Value(s[0]) * (10 * Pow10(|s| - 1)) == 10 * (Value(s[0]) * Pow10(|s| - 1));
    }
  }

  lemma {:induction false} ValDec(n: nat)
    ensures Val(Dec(n)) == n
  {
    if n >= 10 {
      ValDec(n / 10);
      ValSnoc(Dec(n / 10), Digit(n % 10));
    } else {
      assert Val([Digit(n)]) == n;
    }
  }

  /** How two strings of digits compare: as decimal fractions, the shorter first when those are equal. */
  predicate FractionLess(a: nat, la: nat, b: nat, lb: nat) {
    a * Pow10(lb) < b * Pow10(la) || (a * Pow10(lb) == b * Pow10(la) && la < lb)
  }

  /** One digit in front on both sides: `P` is the weight of the digits, `x` and `y` are the rest. */
  lemma LeadingDigits(c: nat, e: nat, P: nat, x: nat, y: nat)
    requires x < P && y < P
    ensures c * P + x < e * P + y <==> c < e || (c == e && x < y)
    ensures c * P + x == e * P + y <==> c == e && x == y
  {
    if c < e { Weight(c, e, P); }
    if e < c { Weight(e, c, P); }
  }

  lemma Weight(c: nat, e: nat, P: nat)
    requires c < e
    ensures c * P + P <= e * P
  {
    assert (c + 1) * P <= e * P;
  }

  lemma Scaled(c: nat, p: nat, v: nat, q: nat)
    ensures (c * p + v) * (10 * q) == 10 * (c * (p * q) + v * q)
  {
    assert (c * p + v) * (10 * q) == 10 * ((c * p + v) * q);
    assert (c * p + v) * q == c * p * q + v * q;
    assert c * p * q == c * (p * q);
  }

  lemma ScaledBound(v: nat, p: nat, q: nat)
    requires v < p && 1 <= q
    ensures v * q < p * q
  {
  }

  lemma {:induction false} StringOrder(s: string, t: string)
    requires Digits(s) && Digits(t)
    ensures StringLess(s, t) <==> FractionLess(Val(s), |s|, Val(t), |t|)
  {
    if s != "" && t != "" {
      assert Digits(s[1..]) && Digits(t[1..]);
      StringOrder(s[1..], t[1..]);
      OrderStep(s, t);
    } else if t == "" {
      assert Val(t) == 0;
    } else {
      assert Val(s) == 0 && 0 < |t|;
    }
  }

  lemma OrderStep(s: string, t: string)
    requires s != "" && t != "" && Digits(s) && Digits(t)
    ensures FractionLess(Val(s), |s|, Val(t), |t|)
       <==> s[0] < t[0] || (s[0] == t[0] && FractionLess(Val(s[1..]), |s| - 1, Val(t[1..]), |t| - 1))
  {
    ValBound(s[1..]);
    ValBound(t[1..]);
    DigitOrder(s[0], t[0]);
    FractionStep(Val(s), Value(s[0]), Val(s[1..]), |s| - 1, Val(t), Value(t[0]), Val(t[1..]), |t| - 1);
  }

  lemma FractionStep(a: nat, c: nat, v: nat, ls: nat, b: nat, e: nat, w: nat, lt: nat)
    requires v < Pow10(ls) && w < Pow10(lt) && a == c * Pow10(ls) + v && b == e * Pow10(lt) + w
    ensures FractionLess(a, ls + 1, b, lt + 1) <==> c < e || (c == e && FractionLess(v, ls, w, lt))
  {
    OrderNumbers(c, Pow10(ls), v, e, Pow10(lt), w);
  }

  lemma DigitOrder(a: char, b: char)
    requires '0' <= a <= '9' && '0' <= b <= '9'
    ensures a < b <==> Value(a) < Value(b)
    ensures a == b <==> Value(a) == Value(b)
  {
  }

  lemma OrderNumbers(c: nat, p: nat, v: nat, e: nat, q: nat, w: nat)
    requires v < p && w < q
    ensures (c * p + v) * (10 * q) < (e * q + w) * (10 * p) <==> c < e || (c == e && v * q < w * p)
    ensures (c * p + v) * (10 * q) == (e * q + w) * (10 * p) <==> c == e && v * q == w * p
  {
    ScaledBound(v, p, q);
    ScaledBound(w, q, p);
    Commute(p, q);
    Scaled(c, p, v, q);
    Scaled(e, q, w, p);
    LeadingDigits(c, e, p * q, v * q, w * p);
  }

  lemma Commute(a: nat, b: nat)
    ensures a * b == b * a
  {
  }

  /** Release directories of one major version sort by their minor versions read as decimal fractions: v0.10
      stands between v0.1 and v0.2. */
  lemma DirectoryOrder(p: string, a: nat, b: nat)
    ensures StringLess(p + Dec(a), p + Dec(b)) <==> FractionLess(a, |Dec(a)|, b, |Dec(b)|)
  {
    CommonPrefix(p, Dec(a), Dec(b));
    StringOrder(Dec(a), Dec(b));
    ValDec(a);
    ValDec(b);
  }

  lemma Weigh(a: nat, b: nat, q: nat)
    requires 0 < q
    ensures a * q < b * q <==> a < b
  {
    if a < b { Weight(a, b, q); }
    if b < a { Weight(b, a, q); }
  }

  /** So it is the order of versions exactly between minors with as many digits, or when the fractions agree. */
  lemma EqualLengthOrder(p: string, a: nat, b: nat)
    requires |Dec(a)| == |Dec(b)|
    ensures StringLess(p + Dec(a), p + Dec(b)) <==> a < b
  {
    DirectoryOrder(p, a, b);
    Weigh(a, b, Pow10(|Dec(a)|));
  }

  lemma OneDigitMinors(a: nat, b: nat)
    requires a < 10 && b < 10
    ensures StringLess("v0." + Dec(a), "v0." + Dec(b)) <==> a < b
  {
    EqualLengthOrder("v0.", a, b);
  }

  /** A two-digit minor sorts before a one-digit one if and only if its first digit is smaller. */
  lemma TwoDigitMinorSortsFirst(tens: nat, ones: nat, b: nat)
    requires 0 < tens < 10 && ones < 10 && b < 10
    ensures StringLess("v0." + Dec(10 * tens + ones), "v0." + Dec(b)) <==> tens < b
  {
    CommonPrefix("v0.", Dec(10 * tens + ones), Dec(b));
    assert Dec(10 * tens + ones) == [Digit(tens), Digit(ones)];
  }

  // ------------------------------------------------------------------- the latest directory

  /** The last of the directories of minors 0..n in string order. */
  function Latest(p: string, n: nat): (m: nat)
    ensures m <= n
  {
    if n == 0 then 0
    else
      var m := Latest(p, n - 1);
      if StringLess(p + Dec(m), p + Dec(n)) then n else m
  }

  lemma DecInjective(p: string, a: nat, b: nat)
    requires p + Dec(a) == p + Dec(b)
    ensures a == b
  {
    assert (p + Dec(a))[|p|..] == Dec(a) && (p + Dec(b))[|p|..] == Dec(b);
    ValDec(a);
    ValDec(b);
  }

  /** Every other directory sorts before it. */
  lemma {:induction false} LatestIsLast(p: string, n: nat, m: nat)
    requires m <= n && m != Latest(p, n)
    ensures StringLess(p + Dec(m), p + Dec(Latest(p, n)))
  {
    var l := Latest(p, n - 1);
    if m < n {
      if m != l { LatestIsLast(p, n - 1, m); }
      if Latest(p, n) == n && m != l { StringTransitive(p + Dec(m), p + Dec(l), p + Dec(n)); }
    } else {
      StringTotal(p + Dec(l), p + Dec(n));
      if p + Dec(l) == p + Dec(n) { DecInjective(p, l, n); }
    }
  }

  /** Every digit is a nine (no digits at all for zero). */
  predicate AllNines(n: nat) { n == 0 || (n % 10 == 9 && AllNines(n / 10)) }

  /** The strings differ before either ends, `a` first. */
  predicate Before(a: string, b: string) {
    a != "" && b != "" && (a[0] < b[0] || (a[0] == b[0] && Before(a[1..], b[1..])))
  }

  lemma {:induction false} BeforeMeansLess(a: string, b: string, x: string, y: string)
    requires Before(a, b)
    ensures StringLess(a + x, b + y)
  {
    assert (a + x)[1..] == a[1..] + x && (b + y)[1..] == b[1..] + y;
    if a[0] == b[0] { BeforeMeansLess(a[1..], b[1..], x, y); }
  }

  lemma {:induction false} BeforePrefixed(s: string, x: string, y: string)
    requires Before(x, y)
    ensures Before(s + x, s + y)
  {
    if s == "" {
      assert s + x == x && s + y == y;
    } else {
      assert (s + x)[1..] == s[1..] + x && (s + y)[1..] == s[1..] + y;
      BeforePrefixed(s[1..], x, y);
    }
  }

  lemma {:induction false} BeforeExtended(a: string, b: string, x: string)
    requires Before(a, b)
    ensures Before(a + x, b)
  {
    assert (a + x)[1..] == a[1..] + x;
    if a[0] == b[0] { BeforeExtended(a[1..], b[1..], x); }
  }

  /** A number with a digit other than nine is before a smaller or equally long one, as a string. */
  lemma {:induction false} Overtaken(q: nat) returns (m: nat)
    requires !AllNines(q)
    ensures 0 < m <= q + 1 && Before(Dec(q), Dec(m))
  {
    if q % 10 != 9 {
      m := q + 1;
      var s := if q < 10 then "" else Dec(q / 10);
      assert m / 10 == q / 10 && m % 10 == q % 10 + 1;
      assert Before([Digit(q % 10)], [Digit(m % 10)]);
      BeforePrefixed(s, [Digit(q % 10)], [Digit(m % 10)]);
      assert Dec(q) == s + [Digit(q % 10)] && Dec(m) == s + [Digit(m % 10)];
    } else {
      m := Overtaken(q / 10);
      assert 10 <= q;
      BeforeExtended(Dec(q / 10), Dec(m), [Digit(q % 10)]);
    }
  }

  lemma {:induction false} NinesString(n: nat)
    requires AllNines(n) && 0 < n
    ensures Nines(Dec(n))
  {
    if n >= 10 { NinesString(n / 10); }
  }

  /** Nothing that is not longer sorts after a string of nines and one more digit. */
  lemma {:induction false} NinesLast(s: string, t: string, d: char)
    requires Digits(s) && Nines(t) && |s| <= |t|
    ensures StringLess(s, t + [d])
  {
    if s != "" {
      assert (t + [d])[1..] == t[1..] + [d];
      NinesLast(s[1..], t[1..], d);
    }
  }

  lemma {:induction false} DecLength(a: nat, b: nat)
    requires a <= b
    ensures |Dec(a)| <= |Dec(b)|
  {
    if 10 <= a { DecLength(a / 10, b / 10); }
  }

  lemma NinesAreLatest(p: string, n: nat, m: nat)
    requires AllNines(n / 10) && m < n
    ensures StringLess(p + Dec(m), p + Dec(n))
  {
    DecLength(m, n);
    if |Dec(m)| == |Dec(n)| {
      EqualLengthOrder(p, m, n);
    } else {
      NinesString(n / 10);
      NinesLast(Dec(m), Dec(n / 10), Digit(n % 10));
      CommonPrefix(p, Dec(m), Dec(n));
    }
  }

  /** The directory the gates pick is the newest release if and only if every digit of its minor version before
      the last is a nine: up to minor 9, then not before 90. */
  lemma LatestIsNewest(p: string, n: nat)
    ensures Latest(p, n) == n <==> AllNines(n / 10)
  {
    if AllNines(n / 10) {
      if Latest(p, n) != n {
        NinesAreLatest(p, n, Latest(p, n));
        LatestIsLast(p, n, n);
        StringTransitive(p + Dec(n), p + Dec(Latest(p, n)), p + Dec(n));
        StringIrreflexive(p + Dec(n));
      }
    } else {
      var m := Overtaken(n / 10);
      BeforeMeansLess(Dec(n / 10), Dec(m), [Digit(n % 10)], "");
      assert Dec(m) + "" == Dec(m);
      CommonPrefix(p, Dec(n), Dec(m));
      if Latest(p, n) == n {
        LatestIsLast(p, n, m);
        StringTransitive(p + Dec(n), p + Dec(m), p + Dec(n));
        StringIrreflexive(p + Dec(n));
      }
    }
  }

  // -------------------------------------------------------------- histories gated this way

  /** Release k has minor version k, and passed the gate against the directory picked among those before. */
  ghost predicate LatestGated(p: string, rs: seq<Descriptor>) {
    && (forall k | 0 <= k < |rs| :: rs[k].major == 0 && rs[k].minor == k)
    && forall k | 0 < k < |rs| :: PolicyOk(rs[Latest(p, k - 1)], rs[k])
  }

  /** Release `i` is `j`, or its baseline, or the baseline of that, and so on. */
  predicate OnPath(p: string, i: nat, j: nat) {
    i == j || (i < j && OnPath(p, i, Latest(p, j - 1)))
  }

  lemma ServesItself(d: Descriptor)
    ensures Serves(d, d)
  {
  }

  lemma {:induction false} PathServes(p: string, rs: seq<Descriptor>, i: nat, j: nat)
    requires LatestGated(p, rs) && i <= j < |rs| && OnPath(p, i, j)
    ensures Serves(rs[j], rs[i])
  {
    if i == j {
      ServesItself(rs[i]);
    } else {
      var b := Latest(p, j - 1);
      PathServes(p, rs, i, b);
      ClassMeaning(rs[b], rs[j]);
      ServesTransitive(rs[i], rs[b], rs[j]);
    }
  }

  function Exposed(k: nat): Slot { Slot(k, "f", "void", [], 0, 4) }

  /** The history in which every release exposes one function more than its baseline. */
  function Table(p: string, k: nat): seq<Slot> {
    (if k == 0 then [] else Table(p, Latest(p, k - 1))) + [Exposed(k)]
  }

  function Growing(p: string, n: nat): seq<Descriptor> {
    seq(n, (k: nat) => Descriptor(0, k, map[], Table(p, k)))
  }

  lemma {:induction false} TableHas(p: string, k: nat, i: nat)
    ensures i in SlotMap(Table(p, k)) <==> i <= k && OnPath(p, i, k)
  {
    var init := if k == 0 then [] else Table(p, Latest(p, k - 1));
    if k > 0 { TableHas(p, Latest(p, k - 1), i); }
    SlotMapSnoc(init, Exposed(k));
  }

  lemma SlotMapSnoc(table: seq<Slot>, s: Slot)
    ensures SlotMap(table + [s]) == SlotMap(table)[s.id := s]
  {
    assert (table + [s])[..|table|] == table;
  }

  lemma GrowingIsGated(p: string, n: nat)
    ensures LatestGated(p, Growing(p, n))
  {
    var rs := Growing(p, n);
    forall k | 0 < k < |rs| ensures PolicyOk(rs[Latest(p, k - 1)], rs[k]) {
      var b := Latest(p, k - 1);
      TableHas(p, b, k);
      SlotMapSnoc(Table(p, b), Exposed(k));
      Exposing(rs[b], rs[k], k);
    }
  }

  lemma Exposing(base: Descriptor, cur: Descriptor, k: nat)
    requires base.structs == map[] == cur.structs && base.major == cur.major && base.minor < cur.minor
    requires k !in SlotMap(base.table) && SlotMap(cur.table) == SlotMap(base.table)[k := Exposed(k)]
    ensures PolicyOk(base, cur)
  {
    assert k in SlotMap(cur.table);
  }

  /** What the load rule is still worth: release `j` serves every plugin of release `i` in all such histories if
      and only if `i` is on its path of baselines. */
  lemma LatestBaselineServes(p: string, i: nat, j: nat)
    requires i <= j
    ensures (forall rs | LatestGated(p, rs) && j < |rs| :: Serves(rs[j], rs[i])) <==> OnPath(p, i, j)
  {
    if OnPath(p, i, j) {
      forall rs | LatestGated(p, rs) && j < |rs| ensures Serves(rs[j], rs[i]) { PathServes(p, rs, i, j); }
    } else {
      var rs := Growing(p, j + 1);
      GrowingIsGated(p, j + 1);
      TableHas(p, i, i);
      TableHas(p, j, i);
      assert i in SlotMap(rs[i].table) && i !in SlotMap(rs[j].table);
      assert !Serves(rs[j], rs[i]);
    }
  }

  /** Up to minor 10 every earlier release is on the path, so the rule is sound; release 11 is gated against
      release 9 and may take away what release 10 added. */
  lemma PathBreaksAtEleven(p: string)
    ensures forall i: nat, j: nat | i <= j <= 10 :: OnPath(p, i, j)
    ensures !OnPath(p, 10, 11)
  {
    forall n: nat | n <= 9 ensures Latest(p, n) == n { LatestIsNewest(p, n); }
    forall i: nat, j: nat | i <= j <= 10 ensures OnPath(p, i, j) { PathOfPredecessors(p, i, j); }
    LatestIsNewest(p, 10);
  }

  lemma {:induction false} PathOfPredecessors(p: string, i: nat, j: nat)
    requires i <= j <= 10 && forall n: nat | n <= 9 :: Latest(p, n) == n
    ensures OnPath(p, i, j)
  {
    if i < j { PathOfPredecessors(p, i, j - 1); }
  }
}
