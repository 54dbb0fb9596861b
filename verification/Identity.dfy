/** The identity table: seeding it, gating it, and names over a history of releases
    (tools/sdk_ids.py, tools/sdk_check.py). */
module Identity {
  import opened Options
  import opened Resolver

  datatype Row = Row(id: nat, va: string, canonical: string, aliases: seq<string>) {
    function Names(): seq<string> { [canonical] + aliases }
  }

  // ---------------------------------------------------------------------------- seeding

  function HexDigitValue(c: char): nat {
    if '0' <= c <= '9' then (c - '0') as nat else if 'a' <= c <= 'f' then (c - 'a') as nat + 10 else 0
  }

  /** The number a canonical address `0x..` stands for: the permanent id. */
  function HexValue(digits: string): nat {
    if digits == "" then 0 else 16 * HexValue(digits[..|digits| - 1]) + HexDigitValue(digits[|digits| - 1])
  }

  function IdOf(va: string): nat { if |va| < 2 then 0 else HexValue(va[2..]) }

  datatype Collision = Collision(va: string, other: string)

  datatype Seeding = Seeding(names: map<string, string>, collisions: seq<Collision>)

  /** The engine name of each address; a second name for an address is reported as a collision. */
  function EngineNames(resolved: seq<Resolved>): Seeding {
    if resolved == [] then Seeding(map[], [])
    else
      var s, r := EngineNames(resolved[..|resolved| - 1]), resolved[|resolved| - 1];
      if r.va in s.names && s.names[r.va] != r.proto.name then
        Seeding(if r.how == ByName then s.names[r.va := r.proto.name] else s.names,
                s.collisions + [Collision(r.va, r.proto.name)])
      else s.(names := s.names[r.va := r.proto.name])
  }

  /** The aliases, with the colliding names of the address folded in. */
  function FoldCollisions(collisions: seq<Collision>, va: string, canonical: string, aliases: seq<string>): seq<string> {
    if collisions == [] then aliases
    else
      var init, c := FoldCollisions(collisions[..|collisions| - 1], va, canonical, aliases), collisions[|collisions| - 1];
      if c.va == va && c.other != canonical && c.other !in init then init + [c.other] else init
  }

  /** The row of a corpus function: the engine name is canonical, a different corpus name is an alias. */
  function RowOf(f: Func, s: Seeding): Row {
    if f.va in s.names && s.names[f.va] != f.name then
      Row(IdOf(f.va), f.va, s.names[f.va], FoldCollisions(s.collisions, f.va, s.names[f.va], [f.name]))
    else Row(IdOf(f.va), f.va, f.name, FoldCollisions(s.collisions, f.va, f.name, []))
  }

  predicate Distinct(names: seq<string>) { forall i, j | 0 <= i < j < |names| :: names[i] != names[j] }

  lemma {:induction false} FoldMeaning(collisions: seq<Collision>, va: string, canonical: string, aliases: seq<string>, n: string)
    requires Distinct(aliases)
    ensures var all := FoldCollisions(collisions, va, canonical, aliases);
      && aliases <= all && Distinct(all)
      && (n in all <==> n in aliases || (n != canonical && exists c <- collisions :: c.va == va && c.other == n))
  {
    if collisions != [] {
      var init, c := collisions[..|collisions| - 1], collisions[|collisions| - 1];
      FoldMeaning(init, va, canonical, aliases, n);
      assert collisions == init + [c];
    }
  }

  /** A row in terms of its function: its canonical name is the engine's, if it declares one, and its aliases are, each
      once, the corpus name if that is another and the names that collided over the address. */
  lemma RowMeaning(f: Func, s: Seeding, n: string)
    ensures var r := RowOf(f, s);
      && r.id == IdOf(f.va) && r.va == f.va && Distinct(r.aliases)
      && r.canonical == (if f.va in s.names then s.names[f.va] else f.name)
      && (n in r.aliases <==>
           n != r.canonical && (n == f.name || exists c <- s.collisions :: c.va == f.va && c.other == n))
  {
    var canonical := if f.va in s.names then s.names[f.va] else f.name;
    FoldMeaning(s.collisions, f.va, canonical, if canonical != f.name then [f.name] else [], n);
  }

  /** The lower-case hexadecimal digits of a number. */
  function Hex(n: nat): string {
    var last := if n % 16 < 10 then '0' + (n % 16) as char else 'a' + (n % 16 - 10) as char;
    if n < 16 then [last] else Hex(n / 16) + [last]
  }

  /** Ids are addresses: the id of the address `n`, written as the corpus writes it, is `n`. */
  lemma IdOfAddress(n: nat)
    ensures IdOf("0x" + Hex(n)) == n
  {
    assert ("0x" + Hex(n))[2..] == Hex(n);
    HexRoundTrip(n);
  }

  lemma {:induction false} HexRoundTrip(n: nat)
    ensures HexValue(Hex(n)) == n
  {
    var last := if n % 16 < 10 then '0' + (n % 16) as char else 'a' + (n % 16 - 10) as char;
    assert HexDigitValue(last) == n % 16;
    if n < 16 {
      assert Hex(n)[..0] == "";
    } else {
      HexRoundTrip(n / 16);
      assert Hex(n)[..|Hex(n)| - 1] == Hex(n / 16);
    }
  }

  function SeedRows(corpus: seq<Func>, s: Seeding): seq<Row> {
    seq(|corpus|, (i: nat) requires i < |corpus| => RowOf(corpus[i], s))
  }

  predicate NamesAll(names: map<string, string>, resolved: seq<Resolved>) {
    forall r <- resolved :: r.va in names && names[r.va] == r.proto.name
  }

  lemma {:induction false} NoCollisions(resolved: seq<Resolved>)
    requires DistinctVas(resolved)
    ensures EngineNames(resolved).collisions == []
    ensures EngineNames(resolved).names.Keys == Owned(resolved)
    ensures NamesAll(EngineNames(resolved).names, resolved)
  {
    if resolved != [] {
      var init, last := resolved[..|resolved| - 1], resolved[|resolved| - 1];
      assert resolved == init + [last];
      NoCollisions(init);
      NewVa(init, last);
      OwnedSnoc(init, last);
      NamesAllSnoc(EngineNames(init).names, init, last);
    }
  }

  lemma NewVa(init: seq<Resolved>, last: Resolved)
    requires DistinctVas(init + [last])
    ensures last.va !in Owned(init)
  {
    var all := init + [last];
    forall r | r in init ensures r.va != last.va {
      var k :| 0 <= k < |init| && init[k] == r;
      assert all[k] == r && all[|init|] == last;
    }
  }

  lemma NamesAllSnoc(names: map<string, string>, init: seq<Resolved>, last: Resolved)
    requires NamesAll(names, init) && names.Keys == Owned(init) && last.va !in Owned(init)
    ensures NamesAll(names[last.va := last.proto.name], init + [last])
  {
    forall r | r in init + [last] ensures r == last || (r in init && r.va in Owned(init)) {}
  }

  // ------------------------------------------------------------------------------- gate

  predicate UniqueIds(rows: seq<Row>) { forall a, b | 0 <= a < b < |rows| :: rows[a].id != rows[b].id }

  /** A name the two rows share means they are the same id. */
  predicate Agree(r: Row, q: Row) { forall n <- r.Names() :: n in q.Names() ==> r.id == q.id }

  predicate NameToOneId(rows: seq<Row>) { forall r <- rows, q <- rows :: Agree(r, q) }

  function RowVas(rows: seq<Row>): set<string> { set r <- rows :: r.va }

  function CorpusVas(corpus: seq<Func>): set<string> { set f <- corpus :: f.va }

  predicate Covers(rows: seq<Row>, corpus: seq<Func>) { RowVas(rows) == CorpusVas(corpus) }

  function RowByVa(rows: seq<Row>): map<string, Row> {
    if rows == [] then map[] else RowByVa(rows[..|rows| - 1])[rows[|rows| - 1].va := rows[|rows| - 1]]
  }

  function RowById(rows: seq<Row>): map<nat, Row> {
    if rows == [] then map[] else RowById(rows[..|rows| - 1])[rows[|rows| - 1].id := rows[|rows| - 1]]
  }

  /** Every address the engine declares has the engine's name as canonical name. */
  predicate CanonicalCurrent(rows: seq<Row>, names: map<string, string>) {
    forall va <- names.Keys :: va in RowByVa(rows) ==> RowByVa(rows)[va].canonical == names[va]
  }

  /** No id of the baseline is gone, and none of its names was dropped. */
  predicate Keeps(rows: seq<Row>, base: seq<Row>) {
    forall id <- RowById(base).Keys ::
      id in RowById(rows) && forall n <- RowById(base)[id].Names() :: n in RowById(rows)[id].Names()
  }

  predicate GateOk(rows: seq<Row>, corpus: seq<Func>, names: map<string, string>, base: Option<seq<Row>>) {
    && UniqueIds(rows) && NameToOneId(rows) && Covers(rows, corpus) && CanonicalCurrent(rows, names)
    && (base.Some? ==> Keeps(rows, base.value))
  }

  lemma {:induction false} RowAt(rows: seq<Row>, k: nat)
    requires DistinctRows(rows) && k < |rows|
    ensures rows[k].va in RowByVa(rows) && RowByVa(rows)[rows[k].va] == rows[k]
  {
    if k < |rows| - 1 { RowAt(rows[..|rows| - 1], k); }
  }

  lemma {:induction false} RowOfVa(rows: seq<Row>, va: string) returns (k: nat)
    requires va in RowByVa(rows)
    ensures k < |rows| && rows[k].va == va && RowByVa(rows)[va] == rows[k]
  {
    if rows[|rows| - 1].va == va { k := |rows| - 1; } else { k := RowOfVa(rows[..|rows| - 1], va); }
  }

  predicate DistinctRows(rows: seq<Row>) { forall a, b | 0 <= a < b < |rows| :: rows[a].va != rows[b].va }

  /** The id of the row is in the table, with all its names. */
  ghost predicate RowKept(rows: seq<Row>, b: Row) {
    exists r <- rows :: r.id == b.id && NamesWithin(b, r)
  }

  ghost predicate NamesWithin(b: Row, r: Row) {
    forall n | n == b.canonical || n in b.aliases :: n == r.canonical || n in r.aliases
  }

  lemma NamesAre(r: Row, n: string)
    ensures n in r.Names() <==> n == r.canonical || n in r.aliases
  {
  }

  lemma KeptAt(rows: seq<Row>, b: Row, i: nat)
    requires i < |rows| && rows[i].id == b.id && forall n <- b.Names() :: n in rows[i].Names()
    ensures RowKept(rows, b)
  {
    forall n | n == b.canonical || n in b.aliases ensures n == rows[i].canonical || n in rows[i].aliases {
      NamesAre(b, n);
      NamesAre(rows[i], n);
    }
    assert rows[i] in rows && NamesWithin(b, rows[i]);
  }

  lemma CanonicalMeaning(rows: seq<Row>, names: map<string, string>)
    requires DistinctRows(rows)
    ensures CanonicalCurrent(rows, names) <==>
      forall i | 0 <= i < |rows| && rows[i].va in names :: rows[i].canonical == names[rows[i].va]
  {
    forall i: nat | i < |rows| ensures rows[i].va in RowByVa(rows) && RowByVa(rows)[rows[i].va] == rows[i] { RowAt(rows, i); }
    forall va | va in RowByVa(rows) ensures exists i | 0 <= i < |rows| :: rows[i].va == va && RowByVa(rows)[va] == rows[i] {
      var k := RowOfVa(rows, va);
    }
  }

  lemma KeepsMeaning(rows: seq<Row>, base: seq<Row>)
    requires UniqueIds(rows) && UniqueIds(base)
    ensures Keeps(rows, base) <==> forall b <- base :: RowKept(rows, b)
  {
    if Keeps(rows, base) {
      forall b | b in base ensures RowKept(rows, b) {
        var k :| 0 <= k < |base| && base[k] == b;
        RowByIdOf(base, k);
        var i := RowOfId(rows, b.id);
        KeptAt(rows, b, i);
      }
    }
    if forall b <- base :: RowKept(rows, b) {
      forall id | id in RowById(base)
        ensures id in RowById(rows) && forall n <- RowById(base)[id].Names() :: n in RowById(rows)[id].Names()
      {
        var k := RowOfId(base, id);
        assert base[k] in base && RowKept(rows, base[k]);
        var r :| r in rows && r.id == id && NamesWithin(base[k], r);
        var i :| 0 <= i < |rows| && rows[i] == r;
        forall n | n in base[k].Names() ensures n in r.Names() { NamesAre(base[k], n); NamesAre(r, n); }
        RowByIdOf(rows, i);
      }
    }
  }

  /** The gate in terms of the table, for addresses that are all different and a baseline with unique ids. It passes if
      and only if no two rows have the same id, no name belongs to two ids, the addresses are those of the corpus, every
      row whose address the engine declares has the engine's name as canonical name, and every row of the baseline has
      its id and all its names still. */
  lemma GateMeaning(rows: seq<Row>, corpus: seq<Func>, names: map<string, string>, base: Option<seq<Row>>)
    requires DistinctRows(rows) && (base.Some? ==> UniqueIds(base.value))
    ensures GateOk(rows, corpus, names, base) <==>
      && (forall a, b | 0 <= a < b < |rows| :: rows[a].id != rows[b].id)
      && (forall r <- rows, q <- rows :: OneId(r, q))
      && (forall f <- corpus :: HasRow(rows, f.va)) && (forall r <- rows :: InCorpus(corpus, r.va))
      && (forall i | 0 <= i < |rows| && rows[i].va in names :: rows[i].canonical == names[rows[i].va])
      && (base.Some? ==> forall b <- base.value :: RowKept(rows, b))
  {
    CanonicalMeaning(rows, names);
    CoversMeaning(rows, corpus);
    NamesMeaning(rows);
    if base.Some? && UniqueIds(rows) { KeepsMeaning(rows, base.value); }
  }

  predicate HasName(r: Row, n: string) { n == r.canonical || n in r.aliases }

  /** A name of both rows is a name of one id. */
  ghost predicate OneId(r: Row, q: Row) { forall n | HasName(r, n) && HasName(q, n) :: r.id == q.id }

  lemma PairMeaning(r: Row, q: Row)
    ensures Agree(r, q) <==> OneId(r, q)
  {
    forall n | HasName(r, n) ensures n in r.Names() { NamesAre(r, n); }
    forall n | HasName(q, n) ensures n in q.Names() { NamesAre(q, n); }
    if !Agree(r, q) {
      var n :| n in r.Names() && n in q.Names() && r.id != q.id;
      NamesAre(r, n);
      NamesAre(q, n);
      assert HasName(r, n) && HasName(q, n);
    }
  }

  lemma NamesMeaning(rows: seq<Row>)
    ensures NameToOneId(rows) <==> forall r <- rows, q <- rows :: OneId(r, q)
  {
    forall r, q | r in rows && q in rows ensures Agree(r, q) <==> OneId(r, q) { PairMeaning(r, q); }
  }

  predicate HasRow(rows: seq<Row>, va: string) { exists k | 0 <= k < |rows| :: rows[k].va == va }

  predicate InCorpus(corpus: seq<Func>, va: string) { exists k | 0 <= k < |corpus| :: corpus[k].va == va }

  lemma VaIn(rows: seq<Row>, corpus: seq<Func>, va: string)
    ensures va in RowVas(rows) <==> HasRow(rows, va)
    ensures va in CorpusVas(corpus) <==> InCorpus(corpus, va)
  {
    if k :| 0 <= k < |rows| && rows[k].va == va { assert rows[k] in rows; }
    if k :| 0 <= k < |corpus| && corpus[k].va == va { assert corpus[k] in corpus; }
  }

  lemma CoversMeaning(rows: seq<Row>, corpus: seq<Func>)
    ensures Covers(rows, corpus) <==>
      (forall f <- corpus :: HasRow(rows, f.va)) && (forall r <- rows :: InCorpus(corpus, r.va))
  {
    if Covers(rows, corpus) {
      forall f | f in corpus ensures HasRow(rows, f.va) { VaIn(rows, corpus, f.va); }
      forall r | r in rows ensures InCorpus(corpus, r.va) { VaIn(rows, corpus, r.va); }
    }
    if (forall f <- corpus :: HasRow(rows, f.va)) && (forall r <- rows :: InCorpus(corpus, r.va)) {
      forall va | va in RowVas(rows) ensures va in CorpusVas(corpus) {
        var r :| r in rows && r.va == va;
        VaIn(rows, corpus, va);
      }
      forall va | va in CorpusVas(corpus) ensures va in RowVas(rows) {
        var f :| f in corpus && f.va == va;
        VaIn(rows, corpus, va);
      }
    }
  }

  // ---------------------------------------------------------------- seeding passes the gate

  /** The gate collects the engine names its own way: exact names first, then the others where an
      address has none. */
  function ExactNames(resolved: seq<Resolved>): map<string, string> {
    if resolved == [] then map[]
    else
      var m, r := ExactNames(resolved[..|resolved| - 1]), resolved[|resolved| - 1];
      if r.how == ByName then m[r.va := r.proto.name] else m
  }

  function WithDefaults(resolved: seq<Resolved>, names: map<string, string>): map<string, string> {
    if resolved == [] then names
    else
      var m, r := WithDefaults(resolved[..|resolved| - 1], names), resolved[|resolved| - 1];
      if r.va in m then m else m[r.va := r.proto.name]
  }

  function GateNames(resolved: seq<Resolved>): map<string, string> { WithDefaults(resolved, ExactNames(resolved)) }

  predicate NamedBy(names: map<string, string>, resolved: seq<Resolved>) {
    forall va <- names.Keys :: exists r <- resolved :: r.va == va && r.proto.name == names[va]
  }

  lemma {:induction false} ExactNamesFrom(resolved: seq<Resolved>)
    ensures NamedBy(ExactNames(resolved), resolved)
  {
    if resolved != [] {
      var init, last := resolved[..|resolved| - 1], resolved[|resolved| - 1];
      ExactNamesFrom(init);
      forall va | va in ExactNames(resolved)
        ensures exists r <- resolved :: r.va == va && r.proto.name == ExactNames(resolved)[va]
      {
        if !(last.how == ByName && va == last.va) {
          var r :| r in init && r.va == va && r.proto.name == ExactNames(init)[va];
          assert r in resolved;
        }
      }
    }
  }

  lemma {:induction false} DefaultsFrom(part: seq<Resolved>, resolved: seq<Resolved>, names: map<string, string>)
    requires NamedBy(names, resolved) && part <= resolved
    ensures NamedBy(WithDefaults(part, names), resolved)
    ensures forall r <- part :: r.va in WithDefaults(part, names)
  {
    if part != [] {
      var init, last := part[..|part| - 1], part[|part| - 1];
      DefaultsFrom(init, resolved, names);
      assert last == resolved[|part| - 1] && last in resolved;
      forall r | r in part ensures r.va in WithDefaults(part, names) { if r != last { assert r in init; } }
    }
  }

  lemma GateNamesAgree(resolved: seq<Resolved>)
    requires DistinctVas(resolved)
    ensures GateNames(resolved) == EngineNames(resolved).names
  {
    NoCollisions(resolved);
    ExactNamesFrom(resolved);
    DefaultsFrom(resolved, resolved, ExactNames(resolved));
    forall va | va in GateNames(resolved)
      ensures va in EngineNames(resolved).names && GateNames(resolved)[va] == EngineNames(resolved).names[va]
    {
      var r :| r in resolved && r.va == va && r.proto.name == GateNames(resolved)[va];
    }
    forall va | va in EngineNames(resolved).names ensures va in GateNames(resolved) {
      var r :| r in resolved && r.va == va;
    }
  }

  predicate DistinctIds(corpus: seq<Func>) {
    forall a, b | 0 <= a < b < |corpus| :: IdOf(corpus[a].va) != IdOf(corpus[b].va)
  }

  lemma TwoPositions<T>(s: seq<T>, a: nat, b: nat)
    requires a < b < |s| && s[a] == s[b]
    ensures multiset(s)[s[a]] >= 2
  {
    assert s == s[..b] + s[b..];
    assert s[..b][a] == s[a] && s[b..][0] == s[a];
  }

  lemma {:induction false} OnePosition(protos: seq<Proto>, p: Proto)
    requires DistinctProtos(protos)
    ensures multiset(protos)[p] <= 1
  {
    if protos != [] {
      var init, last := protos[..|protos| - 1], protos[|protos| - 1];
      assert protos == init + [last];
      OnePosition(init, p);
      forall k | 0 <= k < |init| ensures init[k] != last { assert protos[k] == init[k]; }
    }
  }

  /** A prototype is resolved to one address only. */
  lemma ResolvedOnce(protos: seq<Proto>, corpus: seq<Func>, r: Resolved, q: Resolved)
    requires UniqueCorpus(corpus) && DistinctProtos(protos)
    requires r in Resolve(protos, corpus).resolved && q in Resolve(protos, corpus).resolved
    requires r.proto.name == q.proto.name
    ensures r == q
  {
    var all := Resolve(protos, corpus).resolved;
    ResolvedVasDistinct(protos, corpus);
    ResolvedOrSkipped(protos, corpus);
    assert r.proto == q.proto;
    var a :| 0 <= a < |all| && all[a] == r;
    var b :| 0 <= b < |all| && all[b] == q;
    OnePosition(protos, r.proto);
    if a < b { TwoPositions(Protos(all), a, b); }
    if b < a { TwoPositions(Protos(all), b, a); }
  }

  /** The names of a seeded row: the corpus name, and the engine name where one is declared. */
  lemma SeededNames(protos: seq<Proto>, corpus: seq<Func>, f: Func, n: string) returns (r: Option<Resolved>)
    requires UniqueCorpus(corpus) && DistinctProtos(protos) && f in corpus
    requires n in RowOf(f, EngineNames(Resolve(protos, corpus).resolved)).Names()
    ensures r.None? ==> n == f.name
    ensures r.Some? ==> r.value in Resolve(protos, corpus).resolved && r.value.proto.name == n && r.value.va == f.va
  {
    var resolved := Resolve(protos, corpus).resolved;
    ResolvedVasDistinct(protos, corpus);
    NoCollisions(resolved);
    var s := EngineNames(resolved);
    if n == f.name {
      r := None;
    } else {
      assert f.va in Owned(resolved);
      var q :| q in resolved && q.va == f.va;
      r := Some(q);
    }
  }

  lemma OneFuncPerName(protos: seq<Proto>, corpus: seq<Func>, f: Func, g: Func, n: string)
    requires UniqueCorpus(corpus) && DistinctProtos(protos) && f in corpus && g in corpus
    requires n in RowOf(f, EngineNames(Resolve(protos, corpus).resolved)).Names()
    requires n in RowOf(g, EngineNames(Resolve(protos, corpus).resolved)).Names()
    ensures f == g
  {
    var a := SeededNames(protos, corpus, f, n);
    var b := SeededNames(protos, corpus, g, n);
    if a.Some? && b.Some? {
      ResolvedOnce(protos, corpus, a.value, b.value);
      SameFunc(corpus, f, g);
    } else if a.Some? {
      EngineNameOfCorpusName(protos, corpus, a.value, g);
      SameFunc(corpus, f, g);
    } else if b.Some? {
      EngineNameOfCorpusName(protos, corpus, b.value, f);
      SameFunc(corpus, f, g);
    } else {
      SameFunc(corpus, f, g);
    }
  }

  /** A resolved prototype that carries a corpus name resolved to that function's address. */
  lemma EngineNameOfCorpusName(protos: seq<Proto>, corpus: seq<Func>, r: Resolved, f: Func)
    requires UniqueCorpus(corpus) && DistinctProtos(protos) && f in corpus
    requires r in Resolve(protos, corpus).resolved && r.proto.name == f.name
    ensures r.va == f.va
  {
    ResolvedVasDistinct(protos, corpus);
    MapsAreCorpus(corpus);
    ExactNamesWin(protos, corpus, r.proto);
    SameFunc(corpus, ByNameMap(corpus)[f.name], f);
    ResolvedOnce(protos, corpus, r, Resolved(r.proto, f.va, ByName));
  }

  lemma {:induction false} RowByVaOf(rows: seq<Row>)
    ensures forall va <- RowByVa(rows).Keys :: RowByVa(rows)[va] in rows && RowByVa(rows)[va].va == va
  {
    if rows != [] { RowByVaOf(rows[..|rows| - 1]); }
  }

  lemma SeedNamesAgree(protos: seq<Proto>, corpus: seq<Func>)
    requires UniqueCorpus(corpus) && DistinctProtos(protos)
    ensures NameToOneId(SeedRows(corpus, EngineNames(Resolve(protos, corpus).resolved)))
  {
    var s := EngineNames(Resolve(protos, corpus).resolved);
    var rows := SeedRows(corpus, s);
    forall r, q | r in rows && q in rows ensures Agree(r, q) {
      var a :| 0 <= a < |rows| && rows[a] == r;
      var b :| 0 <= b < |rows| && rows[b] == q;
      forall n | n in r.Names() && n in q.Names() ensures r.id == q.id {
        OneFuncPerName(protos, corpus, corpus[a], corpus[b], n);
      }
    }
  }

  lemma SeedCanonical(corpus: seq<Func>, s: Seeding)
    ensures CanonicalCurrent(SeedRows(corpus, s), s.names)
  {
    var rows := SeedRows(corpus, s);
    RowByVaOf(rows);
    forall va | va in s.names && va in RowByVa(rows) ensures RowByVa(rows)[va].canonical == s.names[va] {
      var k :| 0 <= k < |rows| && rows[k] == RowByVa(rows)[va];
      assert rows[k] == RowOf(corpus[k], s);
    }
  }

  /** For distinct prototype names and a corpus with unique names and addresses, the seeded table has no
      collisions and passes the gate against the same sources. */
  lemma SeedPassesGate(protos: seq<Proto>, corpus: seq<Func>)
    requires UniqueCorpus(corpus) && DistinctIds(corpus) && DistinctProtos(protos)
    ensures var s := EngineNames(Resolve(protos, corpus).resolved);
      s.collisions == [] && GateOk(SeedRows(corpus, s), corpus, GateNames(Resolve(protos, corpus).resolved), None)
  {
    var s := EngineNames(Resolve(protos, corpus).resolved);
    ResolvedVasDistinct(protos, corpus);
    NoCollisions(Resolve(protos, corpus).resolved);
    GateNamesAgree(Resolve(protos, corpus).resolved);
    SeedNamesAgree(protos, corpus);
    SeedCovers(corpus, s);
    SeedCanonical(corpus, s);
  }

  lemma SeedCovers(corpus: seq<Func>, s: Seeding)
    ensures Covers(SeedRows(corpus, s), corpus)
  {
    var rows := SeedRows(corpus, s);
    forall f | f in corpus ensures exists r :: r in rows && r.va == f.va {
      var k :| 0 <= k < |corpus| && corpus[k] == f;
      assert rows[k] in rows;
    }
    forall r | r in rows ensures exists f :: f in corpus && f.va == r.va {
      var k :| 0 <= k < |rows| && rows[k] == r;
      assert corpus[k] in corpus;
    }
  }

  // ----------------------------------------------------------------------------- history

  /** Every release passed the gate, each after the first against the one before it. */
  ghost predicate GatedTables(ts: seq<seq<Row>>) {
    && (forall i | 0 <= i < |ts| :: UniqueIds(ts[i]) && NameToOneId(ts[i]))
    && (forall i | 0 < i < |ts| :: Keeps(ts[i], ts[i - 1]))
  }

  lemma {:induction false} RowByIdOf(rows: seq<Row>, k: nat)
    requires UniqueIds(rows) && k < |rows|
    ensures rows[k].id in RowById(rows) && RowById(rows)[rows[k].id] == rows[k]
  {
    if k < |rows| - 1 { RowByIdOf(rows[..|rows| - 1], k); }
  }

  lemma {:induction false} RowOfId(rows: seq<Row>, id: nat) returns (k: nat)
    requires id in RowById(rows)
    ensures k < |rows| && rows[k].id == id && RowById(rows)[id] == rows[k]
  {
    if rows[|rows| - 1].id == id { k := |rows| - 1; } else { k := RowOfId(rows[..|rows| - 1], id); }
  }

  /** Names are permanent: a name that any release gave to an id -- canonical or alias -- is a name of
      that id, and of no other, in every later release. */
  lemma {:induction false} NamesPermanent(ts: seq<seq<Row>>, i: nat, j: nat, k: nat, n: string) returns (m: nat)
    requires GatedTables(ts) && i <= j < |ts| && k < |ts[i]| && n in ts[i][k].Names()
    ensures m < |ts[j]| && ts[j][m].id == ts[i][k].id && n in ts[j][m].Names()
    ensures forall q | 0 <= q < |ts[j]| && n in ts[j][q].Names() :: q == m
    decreases j - i
  {
    if i == j {
      m := k;
    } else {
      var p := NamesPermanent(ts, i, j - 1, k, n);
      RowByIdOf(ts[j - 1], p);
      assert Keeps(ts[j], ts[j - 1]);
      m := RowOfId(ts[j], ts[i][k].id);
    }
    forall q | 0 <= q < |ts[j]| && n in ts[j][q].Names() ensures q == m {
      assert Agree(ts[j][q], ts[j][m]);
    }
  }

  // --------------------------------------------------------------------------- re-seeding

  /** The name a re-seed puts first: the engine's, else the corpus name. */
  function Linkable(f: Func, names: map<string, string>): string { if f.va in names then names[f.va] else f.name }

  lemma SeedNames(f: Func, names: map<string, string>, n: string)
    ensures n in RowOf(f, Seeding(names, [])).Names() <==> n == f.name || n == Linkable(f, names)
  {
  }

  lemma SeedById(corpus: seq<Func>, names: map<string, string>, k: nat)
    requires DistinctIds(corpus) && k < |corpus|
    ensures var rows := SeedRows(corpus, Seeding(names, []));
      IdOf(corpus[k].va) in RowById(rows) && RowById(rows)[IdOf(corpus[k].va)] == RowOf(corpus[k], Seeding(names, []))
  {
    RowByIdOf(SeedRows(corpus, Seeding(names, [])), k);
  }

  /** The linkable name a function had is still one of its names after a re-seed. */
  predicate NotForgotten(f: Func, old': map<string, string>, names: map<string, string>) {
    Linkable(f, old') == f.name || Linkable(f, old') == Linkable(f, names)
  }

  /** A table seeded again from changed engine names keeps every name of the earlier one if and only if no
      function loses an engine name that is not its corpus name: the seeder does not read the table it
      replaces. */
  lemma ReseedKeeps(corpus: seq<Func>, old': map<string, string>, names: map<string, string>)
    requires DistinctIds(corpus)
    ensures Keeps(SeedRows(corpus, Seeding(names, [])), SeedRows(corpus, Seeding(old', [])))
       <==> forall f <- corpus :: NotForgotten(f, old', names)
  {
    var before, after := SeedRows(corpus, Seeding(old', [])), SeedRows(corpus, Seeding(names, []));
    if Keeps(after, before) {
      forall f | f in corpus ensures NotForgotten(f, old', names) {
        var k :| 0 <= k < |corpus| && corpus[k] == f;
        ReseedFunc(corpus, old', names, k);
      }
    }
    if forall f <- corpus :: NotForgotten(f, old', names) {
      forall id | id in RowById(before)
        ensures id in RowById(after) && forall n <- RowById(before)[id].Names() :: n in RowById(after)[id].Names()
      {
        var k := RowOfId(before, id);
        assert before[k] == RowOf(corpus[k], Seeding(old', [])) && corpus[k] in corpus;
        ReseedFunc(corpus, old', names, k);
      }
    }
  }

  lemma ReseedFunc(corpus: seq<Func>, old': map<string, string>, names: map<string, string>, k: nat)
    requires DistinctIds(corpus) && k < |corpus|
    ensures var b, a := RowById(SeedRows(corpus, Seeding(old', []))), RowById(SeedRows(corpus, Seeding(names, [])));
      var id := IdOf(corpus[k].va);
      && id in b && id in a
      && ((forall n <- b[id].Names() :: n in a[id].Names()) <==> NotForgotten(corpus[k], old', names))
  {
    SeedById(corpus, old', k);
    SeedById(corpus, names, k);
    KeptNames(corpus[k], old', names);
  }

  lemma KeptNames(f: Func, old': map<string, string>, names: map<string, string>)
    ensures (forall n <- RowOf(f, Seeding(old', [])).Names() :: n in RowOf(f, Seeding(names, [])).Names())
       <==> NotForgotten(f, old', names)
  {
    forall n ensures n in RowOf(f, Seeding(old', [])).Names() <==> n == f.name || n == Linkable(f, old') {
      SeedNames(f, old', n);
    }
    SeedNames(f, names, f.name);
    SeedNames(f, names, Linkable(f, old'));
  }

  /** So a re-seed passes the gate against the release before it under exactly that condition. */
  lemma ReseedPassesGate(earlier: seq<Proto>, protos: seq<Proto>, corpus: seq<Func>)
    requires UniqueCorpus(corpus) && DistinctIds(corpus) && DistinctProtos(earlier) && DistinctProtos(protos)
    ensures var old', s := EngineNames(Resolve(earlier, corpus).resolved), EngineNames(Resolve(protos, corpus).resolved);
      GateOk(SeedRows(corpus, s), corpus, GateNames(Resolve(protos, corpus).resolved), Some(SeedRows(corpus, old')))
      <==> forall f <- corpus :: NotForgotten(f, old'.names, s.names)
  {
    SeedPassesGate(earlier, corpus);
    SeedPassesGate(protos, corpus);
    ReseedKeeps(corpus, EngineNames(Resolve(earlier, corpus).resolved).names,
                EngineNames(Resolve(protos, corpus).resolved).names);
  }

  /** The prototype that the seeder resolves by the address in its comment. */
  function Declared(name: string): seq<Proto> { [Proto(name, ["0x10"])] }

  const ONE_FUNCTION := [Func("sub_10", "0x10")]

  lemma DeclaredNames(name: string)
    requires name != "sub_10"
    ensures EngineNames(Resolve(Declared(name), ONE_FUNCTION).resolved).names == map["0x10" := name]
  {
    var p, byName, byVa := Proto(name, ["0x10"]), ByNameMap(ONE_FUNCTION), ByVaMap(ONE_FUNCTION);
    assert ONE_FUNCTION[..0] == [] && Declared(name)[..0] == [];
    assert byName == map["sub_10" := Func("sub_10", "0x10")] && byVa == map["0x10" := Func("sub_10", "0x10")];
    assert Exact([], byName) == [] && Residual([], byName) == [];
    assert Exact(Declared(name), byName) == [] && Residual(Declared(name), byName) == [p];
    assert CommentVa(["0x10"], byVa) == Some("0x10") && Candidate(p, byVa) == Some(("0x10", ByComment));
    assert [p][..0] == [] && Second([], [], byVa) == Outcome([], []);
    var r := Resolved(p, "0x10", ByComment);
    assert Second([p], [], byVa) == Outcome([r], []);
    assert [r][..0] == [] && EngineNames([]) == Seeding(map[], []);
    assert EngineNames([r]).names == map["0x10" := name];
  }

  /** Replacing one engine name of the function by another drops the first one. */
  lemma RenameForgets(old': string, name: string)
    requires old' != "sub_10" && name != "sub_10" && old' != name
    ensures var s, before := EngineNames(Resolve(Declared(name), ONE_FUNCTION).resolved),
                             EngineNames(Resolve(Declared(old'), ONE_FUNCTION).resolved);
      !GateOk(SeedRows(ONE_FUNCTION, s), ONE_FUNCTION, GateNames(Resolve(Declared(name), ONE_FUNCTION).resolved),
              Some(SeedRows(ONE_FUNCTION, before)))
  {
    DeclaredNames(old');
    DeclaredNames(name);
    assert ONE_FUNCTION[0] in ONE_FUNCTION;
    assert !NotForgotten(ONE_FUNCTION[0], map["0x10" := old'], map["0x10" := name]);
    ReseedPassesGate(Declared(old'), Declared(name), ONE_FUNCTION);
  }

  /** The second rename of a function is such a case: from `draw` to `draw_line`, both declared with the address of a
      function the corpus calls `sub_10`. The remedy the gate proposes, to re-seed, drops the first engine name and
      fails the gate. */
  lemma SecondRenameFails()
    ensures var s, before := EngineNames(Resolve(Declared("draw_line"), ONE_FUNCTION).resolved),
                             EngineNames(Resolve(Declared("draw"), ONE_FUNCTION).resolved);
      !GateOk(SeedRows(ONE_FUNCTION, s), ONE_FUNCTION, GateNames(Resolve(Declared("draw_line"), ONE_FUNCTION).resolved),
              Some(SeedRows(ONE_FUNCTION, before)))
  {
    assert "draw"[0] == 'd' && "draw_line"[0] == 'd' && "sub_10"[0] == 's' && |"draw"| < |"draw_line"|;
    RenameForgets("draw", "draw_line");
  }

  // ---------------------------------------------------------------------- implementation

  method Build(corpus: seq<Func>, protos: seq<Proto>) returns (rows: seq<Row>, collisions: seq<Collision>)
    ensures var s := EngineNames(Resolve(protos, corpus).resolved);
      collisions == s.collisions && rows == SeedRows(corpus, s)
  {
    var resolved, _ := BuildResolution(protos, corpus);
    var names: map<string, string> := map[];
    collisions := [];
    for i := 0 to |resolved|
      invariant Seeding(names, collisions) == EngineNames(resolved[..i])
    {
      var r := resolved[i];
      assert resolved[..i + 1][..i] == resolved[..i];
      if r.va in names && names[r.va] != r.proto.name {
        collisions := collisions + [Collision(r.va, r.proto.name)];
        if r.how == ByName { names := names[r.va := r.proto.name]; }
      } else {
        names := names[r.va := r.proto.name];
      }
    }
    assert resolved[..|resolved|] == resolved;
    rows := [];
    for i := 0 to |corpus|
      invariant rows == SeedRows(corpus, Seeding(names, collisions))[..i]
    {
      rows := rows + [RowOf(corpus[i], Seeding(names, collisions))];
    }
  }

  predicate Points(nameToId: map<string, nat>, r: Row) { forall n <- r.Names() :: n in nameToId && nameToId[n] == r.id }

  predicate Mentions(nameToId: map<string, nat>, r: Row) { forall n <- r.Names() :: n in nameToId }

  predicate From(n: string, rows: seq<Row>) { exists r <- rows :: n in r.Names() }

  /** The ids the names of earlier rows were last seen with. */
  ghost predicate Seen(nameToId: map<string, nat>, rows: seq<Row>) {
    && (forall n <- nameToId.Keys :: From(n, rows))
    && (forall r <- rows :: Mentions(nameToId, r))
    && (NameToOneId(rows) ==> forall r <- rows :: Points(nameToId, r))
  }

  /** No name of `r` stands for another id yet. */
  predicate Compatible(nameToId: map<string, nat>, r: Row) { forall n <- r.Names() :: n in nameToId ==> nameToId[n] == r.id }

  lemma NamesStep(nameToId: map<string, nat>, rows: seq<Row>, r: Row)
    requires Seen(nameToId, rows)
    ensures NameToOneId(rows + [r]) <==> NameToOneId(rows) && Compatible(nameToId, r)
  {
    var all := rows + [r];
    if NameToOneId(all) {
      forall a, b | a in rows && b in rows ensures Agree(a, b) { assert a in all && b in all; }
      forall n | n in r.Names() && n in nameToId ensures nameToId[n] == r.id {
        assert From(n, rows);
        var q :| q in rows && n in q.Names();
        assert q in all && r in all && Points(nameToId, q) && Agree(q, r);
      }
    }
    if NameToOneId(rows) && Compatible(nameToId, r) {
      forall a, b | a in all && b in all ensures Agree(a, b) {
        assert a in rows ==> Points(nameToId, a);
        assert b in rows ==> Points(nameToId, b);
      }
    }
  }

  /** One row of the name check: does a name of the row already stand for another id? */
  method CheckRow(nameToId0: map<string, nat>, r: Row) returns (nameToId: map<string, nat>, ok: bool)
    ensures ok == Compatible(nameToId0, r)
    ensures Recorded(nameToId0, nameToId, r)
  {
    nameToId, ok := nameToId0, true;
    var names := r.Names();
    ghost var done: set<string> := {};
    for j := 0 to |names|
      invariant done == set n <- names[..j]
      invariant nameToId.Keys == nameToId0.Keys + done
      invariant forall n <- done :: nameToId[n] == r.id
      invariant forall n <- nameToId0.Keys :: n !in done ==> nameToId[n] == nameToId0[n]
      invariant ok <==> forall n <- done :: n in nameToId0 ==> nameToId0[n] == r.id
    {
      if names[j] in nameToId && nameToId[names[j]] != r.id { ok := false; }
      nameToId := nameToId[names[j] := r.id];
      done := done + {names[j]};
    }
    assert done == set n <- names;
  }

  /** `after` is `before` with the names of `r` pointing to its id. */
  ghost predicate Recorded(before: map<string, nat>, after: map<string, nat>, r: Row) {
    && after.Keys == before.Keys + (set n <- r.Names())
    && (forall n <- r.Names() :: after[n] == r.id)
    && (forall n <- before.Keys :: n !in r.Names() ==> after[n] == before[n])
  }

  lemma SeenStep(before: map<string, nat>, after: map<string, nat>, rows: seq<Row>, r: Row)
    requires Seen(before, rows) && Recorded(before, after, r)
    ensures Seen(after, rows + [r])
  {
    var all := rows + [r];
    forall n | n in after ensures From(n, all) {
      if n in r.Names() { assert r in all; }
      else { assert From(n, rows); var q :| q in rows && n in q.Names(); assert q in all; }
    }
    forall q | q in all ensures Mentions(after, q) { assert q in rows ==> Mentions(before, q); }
    if NameToOneId(all) {
      NamesStep(before, rows, r);
      forall q | q in all ensures Points(after, q) { assert q in rows ==> Points(before, q); }
    }
  }

  /** Every name stands for one id. */
  method CheckNames(rows: seq<Row>) returns (ok: bool)
    ensures ok == NameToOneId(rows)
  {
    ok := true;
    var nameToId: map<string, nat> := map[];
    var i := 0;
    while i < |rows|
      invariant 0 <= i <= |rows| && Checked(ok, nameToId, rows[..i])
    {
      nameToId, ok := NextRow(nameToId, ok, rows, i);
      i := i + 1;
    }
    assert rows[..i] == rows;
  }

  ghost predicate Checked(ok: bool, nameToId: map<string, nat>, done: seq<Row>) {
    ok == NameToOneId(done) && Seen(nameToId, done)
  }

  method NextRow(before: map<string, nat>, ok0: bool, rows: seq<Row>, i: nat) returns (after: map<string, nat>, ok: bool)
    requires i < |rows| && Checked(ok0, before, rows[..i])
    ensures Checked(ok, after, rows[..i + 1])
  {
    var same;
    after, same := CheckRow(before, rows[i]);
    assert rows[..i] + [rows[i]] == rows[..i + 1];
    NamesStep(before, rows[..i], rows[i]);
    SeenStep(before, after, rows[..i], rows[i]);
    ok := ok0 && same;
  }

  function IdSet(rows: seq<Row>): set<nat> { set r <- rows :: r.id }

  lemma {:induction false} IdCount(rows: seq<Row>)
    ensures |IdSet(rows)| <= |rows|
    ensures |IdSet(rows)| == |rows| <==> UniqueIds(rows)
  {
    if rows != [] {
      var init, last := rows[..|rows| - 1], rows[|rows| - 1];
      IdCount(init);
      assert rows == init + [last];
      assert IdSet(rows) == IdSet(init) + {last.id};
      if UniqueIds(rows) {
        assert last.id !in IdSet(init);
      }
      if |IdSet(rows)| == |rows| {
        assert last.id !in IdSet(init);
        forall a | 0 <= a < |init| ensures rows[a].id != last.id { assert init[a] in init; }
      }
    }
  }

  /** The baseline check: no id removed, no name dropped. */
  method CheckBaseline(rows: seq<Row>, base: seq<Row>) returns (ok: bool)
    ensures ok == Keeps(rows, base)
  {
    ok := true;
    var b, c := RowById(base), RowById(rows);
    var todo := b.Keys;
    while todo != {}
      invariant todo <= b.Keys
      invariant ok <==> forall id <- b.Keys - todo :: id in c && forall n <- b[id].Names() :: n in c[id].Names()
      decreases |todo|
    {
      var id :| id in todo;
      if id !in c {
        ok := false;
      } else {
        var names := b[id].Names();
        ghost var before := ok;
        for j := 0 to |names|
          invariant ok <==> (before && forall n <- names[..j] :: n in c[id].Names())
        {
          if names[j] !in c[id].Names() { ok := false; }
        }
        assert names[..|names|] == names;
      }
      todo := todo - {id};
    }
  }

  method GateIdInvariants(rows: seq<Row>, corpus: seq<Func>, names: map<string, string>, base: Option<seq<Row>>)
    returns (ok: bool)
    ensures ok == GateOk(rows, corpus, names, base)
  {
    ok := true;
    IdCount(rows);
    if |rows| != |IdSet(rows)| { ok := false; }
    var one := CheckNames(rows);
    if !one { ok := false; }
    if RowVas(rows) != CorpusVas(corpus) { ok := false; }
    var byVa := RowByVa(rows);
    var stale := set va | va in names && va in byVa && byVa[va].canonical != names[va];
    if stale != {} { ok := false; }
    assert stale == {} <==> CanonicalCurrent(rows, names) by {
      if va :| va in names && va in byVa && byVa[va].canonical != names[va] { assert va in stale; }
    }
    if base.Some? {
      var kept := CheckBaseline(rows, base.value);
      if !kept { ok := false; }
    }
  }
}
