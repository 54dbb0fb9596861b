/** Resolving engine.h prototypes to canonical addresses (tools/sdk_common.py). */
module Resolver {
  import opened Options

  /** A corpus function; its address is a lower-case hex string. */
  datatype Func = Func(name: string, va: string)

  /** A prototype with the hex numbers of its trailing comment. */
  datatype Proto = Proto(name: string, trailing: seq<string>)

  datatype How = ByName | ByComment | BySuffix

  datatype Resolved = Resolved(proto: Proto, va: string, how: How)

  function ByNameMap(corpus: seq<Func>): map<string, Func> {
    if corpus == [] then map[] else ByNameMap(corpus[..|corpus| - 1])[corpus[|corpus| - 1].name := corpus[|corpus| - 1]]
  }

  function ByVaMap(corpus: seq<Func>): map<string, Func> {
    if corpus == [] then map[] else ByVaMap(corpus[..|corpus| - 1])[corpus[|corpus| - 1].va := corpus[|corpus| - 1]]
  }

  predicate UniqueCorpus(corpus: seq<Func>) {
    forall a, b | 0 <= a < b < |corpus| :: corpus[a].name != corpus[b].name && corpus[a].va != corpus[b].va
  }

  lemma {:induction false} MapsAreCorpus(corpus: seq<Func>)
    ensures forall n <- ByNameMap(corpus).Keys :: ByNameMap(corpus)[n] in corpus && ByNameMap(corpus)[n].name == n
    ensures forall v <- ByVaMap(corpus).Keys :: ByVaMap(corpus)[v] in corpus && ByVaMap(corpus)[v].va == v
    ensures forall f <- corpus :: f.name in ByNameMap(corpus) && f.va in ByVaMap(corpus)
  {
    if corpus != [] {
      var init, last := corpus[..|corpus| - 1], corpus[|corpus| - 1];
      MapsAreCorpus(init);
      forall f | f in corpus ensures f.name in ByNameMap(corpus) && f.va in ByVaMap(corpus) {
        if f != last { assert f in init; }
      }
    }
  }

  lemma SameFunc(corpus: seq<Func>, f: Func, g: Func)
    requires UniqueCorpus(corpus) && f in corpus && g in corpus && (f.name == g.name || f.va == g.va)
    ensures f == g
  {
  }

  // ------------------------------------------------------------------------- candidates

  predicate HexDigit(c: char) { '0' <= c <= '9' || 'a' <= c <= 'f' || 'A' <= c <= 'F' }

  function LowerHex(s: string): string {
    seq(|s|, (i: nat) requires i < |s| => if 'A' <= s[i] <= 'F' then s[i] - 'A' + 'a' else s[i])
  }

  /** The tail of a name that ends in an underscore and four to six hex digits. */
  function HexTail(name: string, n: nat): Option<string> {
    if 4 <= n <= 6 && n < |name| && name[|name| - n - 1] == '_' && (forall c <- name[|name| - n..] :: HexDigit(c))
    then Some(name[|name| - n..]) else None
  }

  function SuffixVa(name: string, byVa: map<string, Func>): Option<string> {
    var tail := if HexTail(name, 4).Some? then HexTail(name, 4)
                else if HexTail(name, 5).Some? then HexTail(name, 5) else HexTail(name, 6);
    if tail.Some? && "0x" + LowerHex(tail.value) in byVa then Some("0x" + LowerHex(tail.value)) else None
  }

  /** The first trailing hex number that is a corpus address. */
  function CommentVa(trailing: seq<string>, byVa: map<string, Func>): Option<string> {
    if trailing == [] then None else if trailing[0] in byVa then Some(trailing[0]) else CommentVa(trailing[1..], byVa)
  }

  function Candidate(p: Proto, byVa: map<string, Func>): (r: Option<(string, How)>)
    ensures r.Some? ==> r.value.0 in byVa && r.value.1 != ByName
  {
    var c := CommentVa(p.trailing, byVa);
    CommentVaIsVa(p.trailing, byVa);
    if c.Some? then Some((c.value, ByComment))
    else
      var s := SuffixVa(p.name, byVa);
      if s.Some? then Some((s.value, BySuffix)) else None
  }

  lemma CommentVaIsVa(trailing: seq<string>, byVa: map<string, Func>)
    ensures CommentVa(trailing, byVa).Some? ==> CommentVa(trailing, byVa).value in byVa
  {
  }

  // ------------------------------------------------------------------------- two passes

  /** A suffix is an underscore and four to six hexadecimal digits at the end of the name; it stands for the address
      with these digits in lower case, if the corpus has that... */
  lemma SuffixMeaning(stem: string, digits: string, byVa: map<string, Func>)
    requires 4 <= |digits| <= 6 && forall c <- digits :: '0' <= c <= '9' || 'a' <= c <= 'f' || 'A' <= c <= 'F'
    ensures var va := "0x" + LowerHex(digits); SuffixVa(stem + "_" + digits, byVa) == if va in byVa then Some(va) else None
  {
    var name := stem + "_" + digits;
    var m := |digits|;
    assert name[|name| - m..] == digits && name[|name| - m - 1] == '_';
    assert HexTail(name, m) == Some(digits) && !HexDigit('_');
    forall n | 4 <= n <= 6 && n != m ensures HexTail(name, n) == None {
      if n < m {
        var c := digits[m - n - 1];
        assert name[|name| - n - 1] == c && c in digits && HexDigit(c);
      } else if n < |name| {
        assert name[|name| - n..][n - m - 1] == '_' && '_' in name[|name| - n..];
      }
    }
  }

  /** ...and a name that stands for an address has such a suffix. */
  lemma SuffixSplits(name: string, byVa: map<string, Func>) returns (stem: string, digits: string)
    requires SuffixVa(name, byVa).Some?
    ensures name == stem + "_" + digits && 4 <= |digits| <= 6
    ensures (forall c <- digits :: '0' <= c <= '9' || 'a' <= c <= 'f' || 'A' <= c <= 'F')
    ensures SuffixVa(name, byVa) == Some("0x" + LowerHex(digits))
  {
    var n := if HexTail(name, 4).Some? then 4 else if HexTail(name, 5).Some? then 5 else 6;
    digits, stem := name[|name| - n..], name[..|name| - n - 1];
    assert HexTail(name, n) == Some(digits);
    assert name == name[..|name| - n - 1] + [name[|name| - n - 1]] + name[|name| - n..];
    forall c | c in digits ensures '0' <= c <= '9' || 'a' <= c <= 'f' || 'A' <= c <= 'F' { assert HexDigit(c); }
  }

  lemma LowerHexMeaning(s: string, i: nat)
    requires i < |s|
    ensures |LowerHex(s)| == |s|
    ensures LowerHex(s)[i] as int == if 'A' <= s[i] <= 'F' then s[i] as int + 32 else s[i] as int
  {
  }

  /** The candidate of a prototype is the first address of its comment that the corpus has, or else that of its
      suffix. */
  lemma {:induction false} CandidateMeaning(p: Proto, byVa: map<string, Func>, i: nat)
    requires i <= |p.trailing| && forall j | 0 <= j < i :: p.trailing[j] !in byVa
    ensures i < |p.trailing| && p.trailing[i] in byVa ==> Candidate(p, byVa) == Some((p.trailing[i], ByComment))
    ensures i == |p.trailing| ==>
      Candidate(p, byVa) == if SuffixVa(p.name, byVa).Some? then Some((SuffixVa(p.name, byVa).value, BySuffix)) else None
  {
    CommentOf(p.trailing, byVa, i);
  }

  lemma {:induction false} CommentOf(trailing: seq<string>, byVa: map<string, Func>, i: nat)
    requires i <= |trailing| && forall j | 0 <= j < i :: trailing[j] !in byVa
    ensures i < |trailing| && trailing[i] in byVa ==> CommentVa(trailing, byVa) == Some(trailing[i])
    ensures i == |trailing| ==> CommentVa(trailing, byVa) == None
    decreases |trailing|
  {
    if 0 < i { CommentOf(trailing[1..], byVa, i - 1); }
  }

  datatype Outcome = Outcome(resolved: seq<Resolved>, skipped: seq<Proto>)

  function Exact(protos: seq<Proto>, byName: map<string, Func>): seq<Resolved> {
    if protos == [] then []
    else
      var p, init := protos[|protos| - 1], Exact(protos[..|protos| - 1], byName);
      if p.name in byName then init + [Resolved(p, byName[p.name].va, ByName)] else init
  }

  function Residual(protos: seq<Proto>, byName: map<string, Func>): seq<Proto> {
    if protos == [] then []
    else
      var p, init := protos[|protos| - 1], Residual(protos[..|protos| - 1], byName);
      if p.name in byName then init else init + [p]
  }

  function Owned(resolved: seq<Resolved>): set<string> { set r <- resolved :: r.va }

  /** The second pass: a candidate whose address is already owned is another symbol, not another name. */
  function Second(residual: seq<Proto>, first: seq<Resolved>, byVa: map<string, Func>): Outcome {
    if residual == [] then Outcome(first, [])
    else
      var p, init := residual[|residual| - 1], Second(residual[..|residual| - 1], first, byVa);
      var c := Candidate(p, byVa);
      if c.None? || c.value.0 in Owned(init.resolved) then Outcome(init.resolved, init.skipped + [p])
      else Outcome(init.resolved + [Resolved(p, c.value.0, c.value.1)], init.skipped)
  }

  function Resolve(protos: seq<Proto>, corpus: seq<Func>): Outcome {
    var byName, byVa := ByNameMap(corpus), ByVaMap(corpus);
    Second(Residual(protos, byName), Exact(protos, byName), byVa)
  }

  function Protos(resolved: seq<Resolved>): seq<Proto> {
    seq(|resolved|, (i: nat) requires i < |resolved| => resolved[i].proto)
  }

  predicate DistinctProtos(protos: seq<Proto>) { forall a, b | 0 <= a < b < |protos| :: protos[a].name != protos[b].name }

  predicate DistinctVas(resolved: seq<Resolved>) { forall a, b | 0 <= a < b < |resolved| :: resolved[a].va != resolved[b].va }

  // -------------------------------------------------------------------------- properties

  lemma ProtosSnoc(rs: seq<Resolved>, r: Resolved)
    ensures Protos(rs + [r]) == Protos(rs) + [r.proto]
  {
  }

  lemma {:induction false} FirstPartition(protos: seq<Proto>, byName: map<string, Func>)
    ensures multiset(Protos(Exact(protos, byName))) + multiset(Residual(protos, byName)) == multiset(protos)
  {
    if protos != [] {
      var init, p := protos[..|protos| - 1], protos[|protos| - 1];
      assert protos == init + [p];
      FirstPartition(init, byName);
      if p.name in byName { ProtosSnoc(Exact(init, byName), Resolved(p, byName[p.name].va, ByName)); }
    }
  }

  lemma {:induction false} SecondPartition(residual: seq<Proto>, first: seq<Resolved>, byVa: map<string, Func>)
    ensures var o := Second(residual, first, byVa);
      multiset(Protos(o.resolved)) + multiset(o.skipped) == multiset(Protos(first)) + multiset(residual)
  {
    if residual != [] {
      var init, p := residual[..|residual| - 1], residual[|residual| - 1];
      assert residual == init + [p];
      assert multiset(residual) == multiset(init) + multiset{p};
      SecondPartition(init, first, byVa);
      var o, c := Second(init, first, byVa), Candidate(p, byVa);
      if c.None? || c.value.0 in Owned(o.resolved) {
        assert Second(residual, first, byVa) == Outcome(o.resolved, o.skipped + [p]);
        assert multiset(Protos(o.resolved)) + multiset(o.skipped + [p])
            == (multiset(Protos(o.resolved)) + multiset(o.skipped)) + multiset{p};
      } else {
        var r := Resolved(p, c.value.0, c.value.1);
        assert Second(residual, first, byVa) == Outcome(o.resolved + [r], o.skipped);
        ProtosSnoc(o.resolved, r);
        assert multiset(Protos(o.resolved) + [p]) + multiset(o.skipped)
            == (multiset(Protos(o.resolved)) + multiset(o.skipped)) + multiset{p};
      }
    }
  }

  /** Every prototype is resolved or skipped, and exactly once. */
  lemma ResolvedOrSkipped(protos: seq<Proto>, corpus: seq<Func>)
    ensures var o := Resolve(protos, corpus); multiset(Protos(o.resolved)) + multiset(o.skipped) == multiset(protos)
  {
    FirstPartition(protos, ByNameMap(corpus));
    SecondPartition(Residual(protos, ByNameMap(corpus)), Exact(protos, ByNameMap(corpus)), ByVaMap(corpus));
  }

  lemma {:induction false} ExactFrom(protos: seq<Proto>, byName: map<string, Func>)
    ensures forall r <- Exact(protos, byName) ::
      r.how == ByName && r.proto in protos && r.proto.name in byName && r.va == byName[r.proto.name].va
    ensures forall p <- protos :: p.name in byName ==> Resolved(p, byName[p.name].va, ByName) in Exact(protos, byName)
  {
    if protos != [] {
      var init, p := protos[..|protos| - 1], protos[|protos| - 1];
      ExactFrom(init, byName);
      forall q | q in protos && q.name in byName ensures Resolved(q, byName[q.name].va, ByName) in Exact(protos, byName) {
        if q != p { assert q in init; }
      }
    }
  }

  lemma {:induction false} ExactDistinct(protos: seq<Proto>, corpus: seq<Func>)
    requires UniqueCorpus(corpus) && DistinctProtos(protos)
    ensures DistinctVas(Exact(protos, ByNameMap(corpus)))
  {
    if protos != [] {
      var byName := ByNameMap(corpus);
      var init, p := protos[..|protos| - 1], protos[|protos| - 1];
      ExactDistinct(init, corpus);
      ExactFrom(init, byName);
      MapsAreCorpus(corpus);
      if p.name in byName {
        forall r | r in Exact(init, byName) ensures r.va != byName[p.name].va {
          if r.va == byName[p.name].va { SameFunc(corpus, byName[r.proto.name], byName[p.name]); }
        }
      }
    }
  }

  lemma {:induction false} SecondDistinct(residual: seq<Proto>, first: seq<Resolved>, byVa: map<string, Func>)
    requires DistinctVas(first)
    ensures var o := Second(residual, first, byVa);
      && DistinctVas(o.resolved) && first <= o.resolved
      && forall r <- o.resolved[|first|..] :: r.how != ByName && r.va in byVa && r.proto in residual
  {
    if residual != [] {
      var init, p := residual[..|residual| - 1], residual[|residual| - 1];
      SecondDistinct(init, first, byVa);
      var o, c := Second(init, first, byVa), Candidate(p, byVa);
      forall k | 0 <= k < |o.resolved| ensures o.resolved[k].va in Owned(o.resolved) { assert o.resolved[k] in o.resolved; }
      var o2 := Second(residual, first, byVa);
      forall r | r in o2.resolved[|first|..] ensures r.how != ByName && r.va in byVa && r.proto in residual {
        if r !in o.resolved[|first|..] { assert r == o2.resolved[|o2.resolved| - 1]; }
      }
    }
  }

  lemma {:induction false} ResidualIsUnnamed(protos: seq<Proto>, byName: map<string, Func>)
    ensures forall p <- Residual(protos, byName) :: p in protos && p.name !in byName
  {
    if protos != [] { ResidualIsUnnamed(protos[..|protos| - 1], byName); }
  }

  /** No address is claimed twice, and every claimed address is in the corpus. */
  lemma ResolvedVasDistinct(protos: seq<Proto>, corpus: seq<Func>)
    requires UniqueCorpus(corpus) && DistinctProtos(protos)
    ensures DistinctVas(Resolve(protos, corpus).resolved)
    ensures forall r <- Resolve(protos, corpus).resolved :: r.va in ByVaMap(corpus) && r.proto in protos
  {
    var byName, byVa := ByNameMap(corpus), ByVaMap(corpus);
    var first, residual := Exact(protos, byName), Residual(protos, byName);
    ExactDistinct(protos, corpus);
    ExactFrom(protos, byName);
    SecondDistinct(residual, first, byVa);
    ResidualIsUnnamed(protos, byName);
    MapsAreCorpus(corpus);
    forall r | r in Resolve(protos, corpus).resolved ensures r.va in byVa && r.proto in protos {
      var all := Resolve(protos, corpus).resolved;
      var k :| 0 <= k < |all| && all[k] == r;
      if k < |first| {
        assert first[k] == r && r in first;
      } else {
        assert all[|first|..][k - |first|] == r;
      }
    }
  }

  /** Exact names always win: a prototype with a corpus name gets its own address whatever the comments
      and suffixes of any prototype say, and whatever resolves another way has no corpus name. */
  lemma ExactNamesWin(protos: seq<Proto>, corpus: seq<Func>, p: Proto)
    requires UniqueCorpus(corpus) && DistinctProtos(protos) && p in protos
    ensures var o := Resolve(protos, corpus); var byName := ByNameMap(corpus);
      && (p.name in byName ==> Resolved(p, byName[p.name].va, ByName) in o.resolved)
      && forall r <- o.resolved :: r.how == ByName <==> r.proto.name in byName
  {
    var byName, byVa := ByNameMap(corpus), ByVaMap(corpus);
    var first, residual := Exact(protos, byName), Residual(protos, byName);
    ExactFrom(protos, byName);
    ExactDistinct(protos, corpus);
    SecondDistinct(residual, first, byVa);
    ResidualIsUnnamed(protos, byName);
    var all := Resolve(protos, corpus).resolved;
    forall r | r in all ensures r.how == ByName <==> r.proto.name in byName {
      var k :| 0 <= k < |all| && all[k] == r;
      if k < |first| { assert first[k] == r && r in first; } else { assert all[|first|..][k - |first|] == r; }
    }
    if p.name in byName {
      var r := Resolved(p, byName[p.name].va, ByName);
      var k :| 0 <= k < |first| && first[k] == r;
      assert all[k] == r;
    }
  }

  predicate Claims(p: Proto, byVa: map<string, Func>, va: string) {
    Candidate(p, byVa).Some? && Candidate(p, byVa).value.0 == va
  }

  /** After the second pass exactly the addresses of the first and all candidates are owned. */
  lemma {:induction false} SecondOwns(residual: seq<Proto>, first: seq<Resolved>, byVa: map<string, Func>, va: string)
    ensures va in Owned(Second(residual, first, byVa).resolved)
       <==> va in Owned(first) || exists k | 0 <= k < |residual| :: Claims(residual[k], byVa, va)
  {
    if residual != [] {
      var init, p := residual[..|residual| - 1], residual[|residual| - 1];
      var before := Second(init, first, byVa).resolved;
      SecondOwns(init, first, byVa, va);
      if k :| 0 <= k < |init| && Claims(init[k], byVa, va) { assert Claims(residual[k], byVa, va); }
      if k :| 0 <= k < |residual| && Claims(residual[k], byVa, va) {
        if k < |init| { assert Claims(init[k], byVa, va); }
      }
      if Candidate(p, byVa).Some? { OwnedSnoc(before, Resolved(p, Candidate(p, byVa).value.0, Candidate(p, byVa).value.1)); }
    }
  }

  lemma OwnedSnoc(init: seq<Resolved>, last: Resolved)
    ensures Owned(init + [last]) == Owned(init) + {last.va}
  {
    assert last in init + [last];
    forall r | r in init ensures r in init + [last] {}
  }

  /** The first claim wins: a prototype without a corpus name gets its candidate if and only if no exact name owns that
      address and no earlier such prototype claims it; else it is skipped. */
  lemma {:induction false} FirstClaimWins(residual: seq<Proto>, first: seq<Resolved>, byVa: map<string, Func>, k: nat)
    requires k < |residual|
    ensures var o, p, c := Second(residual, first, byVa), residual[k], Candidate(residual[k], byVa);
      if c.Some? && c.value.0 !in Owned(first) && forall j | 0 <= j < k :: !Claims(residual[j], byVa, c.value.0)
      then Resolved(p, c.value.0, c.value.1) in o.resolved
      else p in o.skipped
  {
    var init, p := residual[..|residual| - 1], residual[|residual| - 1];
    if k < |init| {
      FirstClaimWins(init, first, byVa, k);
      assert forall j | 0 <= j < k :: residual[j] == init[j];
    } else if Candidate(p, byVa).Some? {
      SecondOwns(init, first, byVa, Candidate(p, byVa).value.0);
    }
  }

  // ---------------------------------------------------------------------- implementation

  method BuildResolution(protos: seq<Proto>, corpus: seq<Func>) returns (resolved: seq<Resolved>, skipped: seq<Proto>)
    ensures Outcome(resolved, skipped) == Resolve(protos, corpus)
  {
    var byName, byVa := ByNameMap(corpus), ByVaMap(corpus);
    var residual: seq<Proto> := [];
    var owned: set<string> := {};
    resolved, skipped := [], [];
    for i := 0 to |protos|
      invariant resolved == Exact(protos[..i], byName) && residual == Residual(protos[..i], byName)
      invariant owned == Owned(resolved)
    {
      var p := protos[i];
      assert protos[..i + 1][..i] == protos[..i];
      if p.name in byName {
        owned := owned + {byName[p.name].va};
        resolved := resolved + [Resolved(p, byName[p.name].va, ByName)];
      } else {
        residual := residual + [p];
      }
    }
    assert protos[..|protos|] == protos;
    ghost var first := resolved;
    for i := 0 to |residual|
      invariant Outcome(resolved, skipped) == Second(residual[..i], first, byVa)
      invariant owned == Owned(resolved)
    {
      var p := residual[i];
      assert residual[..i + 1][..i] == residual[..i];
      var c := Candidate(p, byVa);
      if c.None? || c.value.0 in owned {
        skipped := skipped + [p];
      } else {
        resolved := resolved + [Resolved(p, c.value.0, c.value.1)];
        owned := owned + {c.value.0};
      }
    }
    assert residual[..|residual|] == residual;
  }
}
