/** The ABI gates and what they promise over a whole history of releases (tools/sdk_check.py). */
module AbiHistory {

  datatype Field = Field(name: string, offset: nat, size: nat, kind: string)

  /** What the gate compares of a field. */
  datatype Layout = Layout(offset: nat, size: nat, kind: string)

  datatype Struct = Struct(size: nat, fields: seq<Field>)

  datatype Slot = Slot(id: nat, name: string, ret: string, params: seq<string>, offset: nat, size: nat)

  datatype Descriptor = Descriptor(major: nat, minor: nat, structs: map<string, Struct>, table: seq<Slot>)

  /** The dictionary of a field list: a later field of the same name wins. */
  function FieldMap(fs: seq<Field>): map<string, Layout> {
    if fs == [] then map[]
    else
      var f := fs[|fs| - 1];
      FieldMap(fs[..|fs| - 1])[f.name := Layout(f.offset, f.size, f.kind)]
  }

  function SlotMap(table: seq<Slot>): map<nat, Slot> {
    if table == [] then map[] else SlotMap(table[..|table| - 1])[table[|table| - 1].id := table[|table| - 1]]
  }

  // ----------------------------------------------------------------------- classification

  predicate StructBreaks(b: Struct, c: Struct) {
    var bf, cf := FieldMap(b.fields), FieldMap(c.fields);
    || (exists n <- bf.Keys :: n !in cf || cf[n] != bf[n])
    || (exists n <- cf.Keys :: n !in bf && cf[n].offset < b.size)
    || c.size < b.size
  }

  predicate StructAppends(b: Struct, c: Struct) {
    var bf, cf := FieldMap(b.fields), FieldMap(c.fields);
    exists n <- cf.Keys :: n !in bf && b.size <= cf[n].offset
  }

  predicate Breaks(base: map<string, Struct>, cur: map<string, Struct>) {
    exists s <- base.Keys :: s !in cur || StructBreaks(base[s], cur[s])
  }

  predicate Appends(base: map<string, Struct>, cur: map<string, Struct>) {
    exists s <- cur.Keys :: s !in base || StructAppends(base[s], cur[s])
  }

  datatype Change = Identical | AppendOnly | Breaking

  function Classify(base: Descriptor, cur: Descriptor): Change {
    var bs, cs := SlotMap(base.table), SlotMap(cur.table);
    if !(bs.Keys <= cs.Keys) || (exists i <- bs.Keys :: i in cs && cs[i] != bs[i]) || Breaks(base.structs, cur.structs)
    then Breaking
    else if !(cs.Keys <= bs.Keys) || Appends(base.structs, cur.structs) then AppendOnly
    else Identical
  }

  /** The bump policy. */
  predicate PolicyOk(base: Descriptor, cur: Descriptor) {
    match Classify(base, cur)
    case Identical => cur.major == base.major && cur.minor == base.minor
    case AppendOnly => cur.major == base.major && base.minor < cur.minor
    case Breaking => base.major < cur.major
  }

  /** Everything in `p` is found in `h` at the same place: every field of every struct with the same
      offset, size and kind, every engine slot with the same signature. */
  predicate Serves(h: Descriptor, p: Descriptor) {
    && (forall s <- p.structs.Keys :: s in h.structs && ServesFields(h.structs[s], p.structs[s]))
    && (forall i <- SlotMap(p.table).Keys :: i in SlotMap(h.table) && SlotMap(h.table)[i] == SlotMap(p.table)[i])
  }

  predicate ServesFields(h: Struct, p: Struct) {
    forall n <- FieldMap(p.fields).Keys :: n in FieldMap(h.fields) && FieldMap(h.fields)[n] == FieldMap(p.fields)[n]
  }

  /** No struct of `p` is larger in `p` than in `h`. */
  predicate Covers(h: Descriptor, p: Descriptor) {
    forall s <- p.structs.Keys :: s in h.structs && p.structs[s].size <= h.structs[s].size
  }

  /** A change that is not breaking keeps everything, and the class `Identical` is exactly "each serves
      the other, up to growth of a struct": the gate does not see a struct that only grew. */
  lemma ClassMeaning(base: Descriptor, cur: Descriptor)
    ensures Classify(base, cur) != Breaking ==> Serves(cur, base) && Covers(cur, base)
    ensures Classify(base, cur).Identical? <==>
      && SlotMap(base.table) == SlotMap(cur.table)
      && base.structs.Keys == cur.structs.Keys
      && forall s <- base.structs.Keys ::
           FieldMap(base.structs[s].fields) == FieldMap(cur.structs[s].fields) && base.structs[s].size <= cur.structs[s].size
  {
  }

  /** In the dictionary of a field list a name has the offset, size and kind of its last field. */
  lemma {:induction false} FieldMapMeaning(fs: seq<Field>, n: string)
    ensures n in FieldMap(fs) <==> exists k | 0 <= k < |fs| :: fs[k].name == n
    ensures forall k | 0 <= k < |fs| && fs[k].name == n && (forall j | k < j < |fs| :: fs[j].name != n) ::
      n in FieldMap(fs) && FieldMap(fs)[n] == Layout(fs[k].offset, fs[k].size, fs[k].kind)
  {
    if fs != [] {
      var init, last := fs[..|fs| - 1], fs[|fs| - 1];
      FieldMapMeaning(init, n);
      if last.name != n && n in FieldMap(init) {
        var k :| 0 <= k < |init| && init[k].name == n;
        assert fs[k].name == n;
      }
      forall k | 0 <= k < |fs| && fs[k].name == n && (forall j | k < j < |fs| :: fs[j].name != n)
        ensures n in FieldMap(fs) && FieldMap(fs)[n] == Layout(fs[k].offset, fs[k].size, fs[k].kind)
      {
        if k < |init| {
          assert last.name != n && init[k] == fs[k];
          forall j | k < j < |init| ensures init[j].name != n { assert init[j] == fs[j]; }
        }
      }
    }
  }

  lemma {:induction false} SlotMapKeys(table: seq<Slot>, id: nat)
    ensures id in SlotMap(table) <==> exists k | 0 <= k < |table| :: table[k].id == id
  {
    if table != [] {
      var init, last := table[..|table| - 1], table[|table| - 1];
      SlotMapKeys(init, id);
      if last.id != id && id in SlotMap(init) {
        var k :| 0 <= k < |init| && init[k].id == id;
        assert table[k].id == id;
      }
    }
  }

  lemma {:induction false} SlotMapLast(table: seq<Slot>, k: nat)
    requires k < |table| && forall j | k < j < |table| :: table[j].id != table[k].id
    ensures table[k].id in SlotMap(table) && SlotMap(table)[table[k].id] == table[k]
  {
    if k < |table| - 1 { SlotMapLast(table[..|table| - 1], k); }
  }

  /** In the dictionary of the engine table an id has its last slot. */
  lemma SlotMapMeaning(table: seq<Slot>, id: nat)
    ensures id in SlotMap(table) <==> exists k | 0 <= k < |table| :: table[k].id == id
    ensures forall k | 0 <= k < |table| && table[k].id == id && (forall j | k < j < |table| :: table[j].id != id) ::
      id in SlotMap(table) && SlotMap(table)[id] == table[k]
  {
    SlotMapKeys(table, id);
    forall k | 0 <= k < |table| && table[k].id == id && (forall j | k < j < |table| :: table[j].id != id)
      ensures id in SlotMap(table) && SlotMap(table)[id] == table[k]
    {
      SlotMapLast(table, k);
    }
  }

  /** Something of `base` is lost: a slot or its signature, a struct, its size, a field or its layout, or the place of
      the old fields to a new one. */
  ghost predicate Lost(base: Descriptor, cur: Descriptor) {
    || (exists i <- SlotMap(base.table).Keys :: i !in SlotMap(cur.table) || SlotMap(cur.table)[i] != SlotMap(base.table)[i])
    || (exists s <- base.structs.Keys :: s !in cur.structs || FieldsLost(base.structs[s], cur.structs[s]))
  }

  ghost predicate FieldsLost(b: Struct, c: Struct) {
    var bf, cf := FieldMap(b.fields), FieldMap(c.fields);
    || c.size < b.size
    || (exists n <- bf.Keys :: !(n in cf && cf[n].offset == bf[n].offset && cf[n].size == bf[n].size && cf[n].kind == bf[n].kind))
    || (exists n <- cf.Keys :: n !in bf && cf[n].offset < b.size)
  }

  /** Something is added: a slot, a struct, or a field behind the old size of its struct. */
  ghost predicate Added(base: Descriptor, cur: Descriptor) {
    || (exists i <- SlotMap(cur.table).Keys :: i !in SlotMap(base.table))
    || (exists s <- cur.structs.Keys :: s !in base.structs || FieldsAdded(base.structs[s], cur.structs[s]))
  }

  ghost predicate FieldsAdded(b: Struct, c: Struct) {
    var bf, cf := FieldMap(b.fields), FieldMap(c.fields);
    exists n <- cf.Keys :: n !in bf && b.size <= cf[n].offset
  }

  lemma FieldsLostIsBreaking(b: Struct, c: Struct)
    ensures FieldsLost(b, c) <==> StructBreaks(b, c)
  {
  }

  lemma LostIsBreaking(base: Descriptor, cur: Descriptor)
    ensures Lost(base, cur) <==> Classify(base, cur) == Breaking
  {
    forall s | s in base.structs && s in cur.structs
      ensures FieldsLost(base.structs[s], cur.structs[s]) <==> StructBreaks(base.structs[s], cur.structs[s])
    {
      FieldsLostIsBreaking(base.structs[s], cur.structs[s]);
    }
  }

  lemma AddedIsAppend(base: Descriptor, cur: Descriptor)
    ensures !Lost(base, cur) ==> (Added(base, cur) <==> Classify(base, cur) == AppendOnly)
  {
    LostIsBreaking(base, cur);
  }

  /** The verdict of the gate in full. It passes a pair if and only if something was lost and the major version rose;
      or nothing was lost, something was added, and the minor version rose alone; or neither, and the version is the
      same. */
  lemma GateVerdict(base: Descriptor, cur: Descriptor)
    ensures PolicyOk(base, cur) <==>
      || (Lost(base, cur) && base.major < cur.major)
      || (!Lost(base, cur) && Added(base, cur) && cur.major == base.major && base.minor < cur.minor)
      || (!Lost(base, cur) && !Added(base, cur) && cur.major == base.major && cur.minor == base.minor)
  {
    LostIsBreaking(base, cur);
    AddedIsAppend(base, cur);
  }

  /** Every change has a version that passes, and the changes that lose something are no exception. */
  lemma EveryChangeHasABump(base: Descriptor, cur: Descriptor) returns (major: nat, minor: nat)
    ensures PolicyOk(base, cur.(major := major, minor := minor))
  {
    match Classify(base, cur)
    case Identical => major, minor := base.major, base.minor;
    case AppendOnly => major, minor := base.major, base.minor + 1;
    case Breaking => major, minor := base.major + 1, 0;
  }

  // ---------------------------------------------------------------------------- histories

  /** Every release passed the gate against the one before it. */
  ghost predicate Released(rs: seq<Descriptor>) { forall i | 0 < i < |rs| :: PolicyOk(rs[i - 1], rs[i]) }

  lemma {:induction false} VersionsRise(rs: seq<Descriptor>, i: nat, j: nat)
    requires Released(rs) && i <= j < |rs|
    ensures rs[i].major < rs[j].major || (rs[i].major == rs[j].major && rs[i].minor <= rs[j].minor)
    decreases j - i
  {
    if i < j {
      VersionsRise(rs, i, j - 1);
      assert PolicyOk(rs[j - 1], rs[j]);
    }
  }

  lemma ServesTransitive(a: Descriptor, b: Descriptor, c: Descriptor)
    requires Serves(b, a) && Serves(c, b)
    ensures Serves(c, a)
  {
    forall s | s in a.structs ensures s in c.structs && ServesFields(c.structs[s], a.structs[s]) {
      assert ServesFields(b.structs[s], a.structs[s]) && ServesFields(c.structs[s], b.structs[s]);
    }
  }

  /** Forward in time within a major version nothing is lost. */
  lemma {:induction false} LaterServes(rs: seq<Descriptor>, i: nat, j: nat)
    requires Released(rs) && i <= j < |rs| && rs[i].major == rs[j].major
    ensures Serves(rs[j], rs[i]) && Covers(rs[j], rs[i])
    decreases j - i
  {
    if i < j {
      VersionsRise(rs, i, j - 1);
      VersionsRise(rs, j - 1, j);
      LaterServes(rs, i, j - 1);
      assert PolicyOk(rs[j - 1], rs[j]);
      ClassMeaning(rs[j - 1], rs[j]);
      ServesTransitive(rs[i], rs[j - 1], rs[j]);
    }
  }

  /** Backward in time nothing is lost as long as the version did not change. */
  lemma {:induction false} SameVersionServes(rs: seq<Descriptor>, j: nat, i: nat)
    requires Released(rs) && j <= i < |rs| && rs[i].major == rs[j].major && rs[i].minor == rs[j].minor
    ensures Serves(rs[j], rs[i])
    decreases i - j
  {
    if j < i {
      VersionsRise(rs, j, i - 1);
      VersionsRise(rs, i - 1, i);
      SameVersionServes(rs, j, i - 1);
      assert PolicyOk(rs[i - 1], rs[i]);
      ClassMeaning(rs[i - 1], rs[i]);
      ServesTransitive(rs[i], rs[i - 1], rs[j]);
    }
  }

  /** The loader's rule. */
  predicate Loads(plugin: Descriptor, host: Descriptor) { plugin.major == host.major && plugin.minor <= host.minor }

  /** The load rule is sound over every history of gated releases: a plugin built against release `i`
      finds every struct field and every engine slot in every host release `j` that loads it, before or
      after its own. */
  lemma LoadRuleSound(rs: seq<Descriptor>, i: nat, j: nat)
    requires Released(rs) && i < |rs| && j < |rs| && Loads(rs[i], rs[j])
    ensures Serves(rs[j], rs[i])
  {
    if i <= j {
      LaterServes(rs, i, j);
    } else {
      VersionsRise(rs, j, i);
      SameVersionServes(rs, j, i);
    }
  }

  /** A release that exposes the slots with these ids and nothing else. */
  function WithSlots(major: nat, minor: nat, ids: seq<nat>): Descriptor {
    Descriptor(major, minor, map[], seq(|ids|, (k: nat) requires k < |ids| => Slot(ids[k], "f", "void", [], 0, 4)))
  }

  lemma ExposedSlots(major: nat, minor: nat, id: nat)
    ensures SlotMap(WithSlots(major, minor, []).table) == map[]
    ensures SlotMap(WithSlots(major, minor, [id]).table) == map[id := Slot(id, "f", "void", [], 0, 4)]
  {
    var t := WithSlots(major, minor, [id]).table;
    assert t == [Slot(id, "f", "void", [], 0, 4)] && t[..0] == [];
  }

  lemma TwoReleases(first: Descriptor, second: Descriptor)
    requires PolicyOk(first, second)
    ensures Released([first, second])
  {
  }

  /** The load rule is exact: for a plugin and a host of these versions, every gated history serves the plugin if and
      only if the major versions agree and the plugin's minor version is at most the host's. Any looser rule would
      load a plugin that some history does not serve. */
  lemma LoadRuleExact(major: nat, minor: nat, hostMajor: nat, hostMinor: nat)
    ensures (major == hostMajor && minor <= hostMinor) <==>
      forall rs: seq<Descriptor>, i: nat, j: nat | Released(rs) && i < |rs| && j < |rs|
        && rs[i].major == major && rs[i].minor == minor && rs[j].major == hostMajor && rs[j].minor == hostMinor ::
        Serves(rs[j], rs[i])
  {
    if major == hostMajor && minor <= hostMinor {
      forall rs: seq<Descriptor>, i: nat, j: nat | Released(rs) && i < |rs| && j < |rs|
        && rs[i].major == major && rs[i].minor == minor && rs[j].major == hostMajor && rs[j].minor == hostMinor
        ensures Serves(rs[j], rs[i])
      {
        LoadRuleSound(rs, i, j);
      }
    } else {
      var rs, i, j := Unserved(major, minor, hostMajor, hostMinor);
    }
  }

  lemma Unserved(major: nat, minor: nat, hostMajor: nat, hostMinor: nat) returns (rs: seq<Descriptor>, i: nat, j: nat)
    requires !(major == hostMajor && minor <= hostMinor)
    ensures Released(rs) && i < |rs| && j < |rs| && !Serves(rs[j], rs[i])
    ensures rs[i].major == major && rs[i].minor == minor && rs[j].major == hostMajor && rs[j].minor == hostMinor
  {
    var plugin := WithSlots(major, minor, [1]);
    ExposedSlots(major, minor, 1);
    ExposedSlots(hostMajor, hostMinor, 2);
    if major < hostMajor {
      var host := WithSlots(hostMajor, hostMinor, []);
      assert 1 in SlotMap(plugin.table) && SlotMap(host.table) == map[];
      TwoReleases(plugin, host);
      rs, i, j := [plugin, host], 0, 1;
    } else {
      var host := WithSlots(hostMajor, hostMinor, if hostMajor < major then [2] else []);
      assert hostMajor < major ==> 2 in SlotMap(host.table);
      assert 1 in SlotMap(plugin.table) && SlotMap(host.table).Keys <= {2};
      TwoReleases(host, plugin);
      rs, i, j := [host, plugin], 1, 0;
    }
    assert 1 in SlotMap(plugin.table);
  }

  // ------------------------------------------------------------------------ struct sizes

  /** No struct has another size in the next release. */
  predicate SameSizes(b: Descriptor, c: Descriptor) {
    forall s <- b.structs.Keys :: s in c.structs && b.structs[s].size == c.structs[s].size
  }

  predicate Steady(rs: seq<Descriptor>, j: nat, i: nat)
    requires j <= i < |rs|
  {
    forall k | j <= k < i :: SameSizes(rs[k], rs[k + 1])
  }

  lemma SteadyStep(rs: seq<Descriptor>, j: nat, i: nat)
    requires j < i < |rs|
    ensures Steady(rs, j, i) <==> Steady(rs, j, i - 1) && SameSizes(rs[i - 1], rs[i])
  {
    assert SameSizes(rs[i - 1], rs[i - 1 + 1]) <==> SameSizes(rs[i - 1], rs[i]);
  }

  lemma {:induction false} SizesOverTime(rs: seq<Descriptor>, j: nat, i: nat)
    requires Released(rs) && j <= i < |rs| && rs[i].major == rs[j].major && rs[i].minor == rs[j].minor
    ensures rs[i].structs.Keys == rs[j].structs.Keys
    ensures forall s <- rs[j].structs.Keys :: rs[j].structs[s].size <= rs[i].structs[s].size
    ensures SameSizes(rs[j], rs[i]) <==> Steady(rs, j, i)
    decreases i - j
  {
    if j < i {
      VersionsRise(rs, j, i - 1);
      VersionsRise(rs, i - 1, i);
      SizesOverTime(rs, j, i - 1);
      assert PolicyOk(rs[i - 1], rs[i]);
      ClassMeaning(rs[i - 1], rs[i]);
      SizeStep(rs[j], rs[i - 1], rs[i]);
      SteadyStep(rs, j, i);
    }
  }

  lemma SizeStep(a: Descriptor, b: Descriptor, c: Descriptor)
    requires a.structs.Keys == b.structs.Keys == c.structs.Keys
    requires forall s <- a.structs.Keys :: a.structs[s].size <= b.structs[s].size <= c.structs[s].size
    ensures SameSizes(a, c) <==> SameSizes(a, b) && SameSizes(b, c)
  {
    forall s | s in a.structs ensures a.structs[s].size <= b.structs[s].size <= c.structs[s].size {}
  }

  /** A loading host's structs are as large as the plugin's if and only if the host is not older, or no struct
      changed its size between the two: the gate calls a struct that only grew identical. */
  lemma LoadedSizes(rs: seq<Descriptor>, i: nat, j: nat)
    requires Released(rs) && i < |rs| && j < |rs| && Loads(rs[i], rs[j])
    ensures Covers(rs[j], rs[i]) <==> i <= j || Steady(rs, j, i)
  {
    if i <= j {
      LaterServes(rs, i, j);
    } else {
      VersionsRise(rs, j, i);
      SizesOverTime(rs, j, i);
    }
  }

  /** The size of a struct follows from its fields: they end inside it, and it is no more than the padding to a
      multiple of four larger. */
  predicate SizeFollows(s: Struct) {
    var m := FieldMap(s.fields);
    && s.size % 4 == 0
    && (forall n <- m.Keys :: m[n].offset + m[n].size <= s.size)
    && (s.size == 0 || exists n <- m.Keys :: s.size < m[n].offset + m[n].size + 4)
  }

  predicate Generated(d: Descriptor) { forall s <- d.structs.Keys :: SizeFollows(d.structs[s]) }

  lemma SizeByFields(a: Struct, b: Struct)
    requires SizeFollows(a) && SizeFollows(b) && FieldMap(a.fields) == FieldMap(b.fields)
    ensures a.size == b.size
  {
    var m := FieldMap(a.fields);
    if a.size != 0 {
      var n :| n in m && a.size < m[n].offset + m[n].size + 4;
      assert a.size < b.size + 4;
    }
    if b.size != 0 {
      var n :| n in m && b.size < m[n].offset + m[n].size + 4;
      assert b.size < a.size + 4;
    }
    Multiples(a.size, b.size);
  }

  lemma Multiples(a: nat, b: nat)
    requires a % 4 == 0 && b % 4 == 0 && a < b + 4 && b < a + 4
    ensures a == b
  {
  }

  /** For descriptors the generator can write, the load rule covers sizes too: no struct of a plugin is larger
      than the loading host's, even when the host is older. */
  lemma LoadRuleCovers(rs: seq<Descriptor>, i: nat, j: nat)
    requires Released(rs) && i < |rs| && j < |rs| && Loads(rs[i], rs[j])
    requires forall r <- rs :: Generated(r)
    ensures Covers(rs[j], rs[i])
  {
    LoadedSizes(rs, i, j);
    forall k | j <= k < i ensures SameSizes(rs[k], rs[k + 1]) {
      VersionsRise(rs, j, k);
      VersionsRise(rs, k, k + 1);
      VersionsRise(rs, k + 1, i);
      assert PolicyOk(rs[k], rs[k + 1]) && rs[k] in rs && rs[k + 1] in rs;
      IdenticalSizes(rs[k], rs[k + 1]);
    }
  }

  lemma IdenticalSizes(b: Descriptor, c: Descriptor)
    requires PolicyOk(b, c) && b.major == c.major && b.minor == c.minor
    requires Generated(b) && Generated(c)
    ensures SameSizes(b, c)
  {
    ClassMeaning(b, c);
    forall s | s in b.structs ensures b.structs[s].size == c.structs[s].size { SizeByFields(b.structs[s], c.structs[s]); }
  }

  /** Sizes that do not follow from the fields could slip through: a struct that grew without a new field passes
      as identical, and the older release loads the newer one's plugins. */
  lemma GrowthIsInvisible()
    ensures exists rs: seq<Descriptor> ::
      && |rs| == 2 && Released(rs) && Loads(rs[1], rs[0]) && !Covers(rs[0], rs[1])
      && Generated(rs[0]) && !Generated(rs[1])
  {
    var rs := [Descriptor(0, 1, map["s" := Struct(0, [])], []), Descriptor(0, 1, map["s" := Struct(8, [])], [])];
    ClassMeaning(rs[0], rs[1]);
    assert Released(rs);
    assert "s" in rs[1].structs.Keys;
  }

  // ---------------------------------------------------------------------- exposure order

  function Names(table: seq<Slot>): seq<(nat, string)> {
    seq(|table|, (k: nat) requires k < |table| => (table[k].id, table[k].name))
  }

  ghost predicate OrderKept(rs: seq<Descriptor>) {
    forall i | 0 < i < |rs| :: Names(rs[i - 1].table) <= Names(rs[i].table)
  }

  predicate UniqueIds(table: seq<Slot>) { forall a, b | 0 <= a < b < |table| :: table[a].id != table[b].id }

  lemma SlotOfTable(table: seq<Slot>, k: nat)
    requires UniqueIds(table) && k < |table|
    ensures table[k].id in SlotMap(table) && SlotMap(table)[table[k].id] == table[k]
  {
    SlotMapLast(table, k);
  }

  lemma TableOfSlot(table: seq<Slot>, id: nat) returns (k: nat)
    requires id in SlotMap(table)
    ensures k < |table| && table[k].id == id
  {
    SlotMapKeys(table, id);
    k :| k < |table| && table[k].id == id;
  }

  lemma {:induction false} OrderOverTime(rs: seq<Descriptor>, i: nat, j: nat)
    requires OrderKept(rs) && i <= j < |rs|
    ensures Names(rs[i].table) <= Names(rs[j].table)
    decreases j - i
  {
    if i < j { OrderOverTime(rs, i, j - 1); }
  }

  lemma NamesAgree(p: seq<Slot>, h: seq<Slot>, k: nat)
    requires (Names(p) <= Names(h) || Names(h) <= Names(p)) && k < |p| && k < |h|
    ensures p[k].id == h[k].id
  {
    assert Names(p)[k] == Names(h)[k];
  }

  lemma NoneMissing<K, V>(a: map<K, V>, b: map<K, V>)
    ensures a.Keys - b.Keys == {} <==> a.Keys <= b.Keys
  {
    forall k | k in a ensures k in b || k in a.Keys - b.Keys {}
    if a.Keys - b.Keys == {} {
      forall k | k in a.Keys ensures k in b.Keys { assert k !in a.Keys - b.Keys; }
    }
  }

  /** Both gates together: every slot of the plugin's engine table sits at the same index of the host's
      table, with the same signature and offset. */
  lemma LoadedTableIsPrefix(rs: seq<Descriptor>, i: nat, j: nat)
    requires Released(rs) && OrderKept(rs) && i < |rs| && j < |rs| && Loads(rs[i], rs[j])
    requires UniqueIds(rs[i].table) && UniqueIds(rs[j].table)
    ensures rs[i].table <= rs[j].table
  {
    LoadRuleSound(rs, i, j);
    var p, h := rs[i].table, rs[j].table;
    if i <= j { OrderOverTime(rs, i, j); } else { OrderOverTime(rs, j, i); }
    forall k | 0 <= k < |p| ensures k < |h| && h[k] == p[k] {
      SlotOfTable(p, k);
      var m := TableOfSlot(h, p[k].id);
      SlotOfTable(h, m);
      if m < |p| { NamesAgree(p, h, m); }
      if k < |h| { NamesAgree(p, h, k); }
    }
    if p != [] {
      var last := p[|p| - 1];
      assert |p| - 1 < |h|;
    }
    assert p == h[..|p|];
  }

  // ----------------------------------------------------------------------- implementation

  method OldFields(bf: map<string, Layout>, cf: map<string, Layout>) returns (breaking: bool)
    ensures breaking == exists n <- bf.Keys :: n !in cf || cf[n] != bf[n]
  {
    breaking := false;
    var todo := bf.Keys;
    while todo != {}
      invariant todo <= bf.Keys
      invariant breaking == exists n <- bf.Keys - todo :: n !in cf || cf[n] != bf[n]
      decreases |todo|
    {
      var n :| n in todo;
      if n !in cf { breaking := true; }
      else if cf[n] != bf[n] { breaking := true; }
      todo := todo - {n};
    }
  }

  method NewFields(size: nat, bf: map<string, Layout>, cf: map<string, Layout>) returns (breaking: bool, appends: bool)
    ensures breaking == exists n <- cf.Keys :: n !in bf && cf[n].offset < size
    ensures appends == exists n <- cf.Keys :: n !in bf && size <= cf[n].offset
  {
    breaking, appends := false, false;
    var added := cf.Keys - bf.Keys;
    var todo := added;
    while todo != {}
      invariant todo <= added
      invariant breaking == exists n <- added - todo :: cf[n].offset < size
      invariant appends == exists n <- added - todo :: size <= cf[n].offset
      decreases |todo|
    {
      var n :| n in todo;
      if cf[n].offset < size { breaking := true; } else { appends := true; }
      todo := todo - {n};
    }
  }

  method ClassifyFields(b: Struct, c: Struct) returns (breaking: bool, appends: bool)
    ensures breaking == StructBreaks(b, c) && appends == StructAppends(b, c)
  {
    var bf, cf := FieldMap(b.fields), FieldMap(c.fields);
    var changed := OldFields(bf, cf);
    var inserted;
    inserted, appends := NewFields(b.size, bf, cf);
    breaking := changed || inserted;
    if c.size < b.size { breaking := true; }
  }

  method ClassifyStructs(base: map<string, Struct>, cur: map<string, Struct>) returns (breaking: bool, appends: bool)
    ensures breaking == Breaks(base, cur) && appends == Appends(base, cur)
  {
    breaking, appends := false, false;
    var all := base.Keys + cur.Keys;
    var todo := all;
    while todo != {}
      invariant todo <= all
      invariant breaking == exists s <- base.Keys - todo :: s !in cur || StructBreaks(base[s], cur[s])
      invariant appends == exists s <- cur.Keys - todo :: s !in base || StructAppends(base[s], cur[s])
      decreases |todo|
    {
      var s :| s in todo;
      if s !in cur { breaking := true; }
      else if s !in base { appends := true; }
      else {
        var b, a := ClassifyFields(base[s], cur[s]);
        breaking, appends := breaking || b, appends || a;
      }
      todo := todo - {s};
    }
  }

  method GateAbiDiff(base: Descriptor, cur: Descriptor) returns (ok: bool)
    ensures ok == PolicyOk(base, cur)
  {
    var bs, cs := SlotMap(base.table), SlotMap(cur.table);
    var removed, added := bs.Keys - cs.Keys, cs.Keys - bs.Keys;
    var changed := set i | i in bs && i in cs && cs[i] != bs[i];
    var sBreak, sAppend := ClassifyStructs(base.structs, cur.structs);
    var change := Identical;
    NoneMissing(bs, cs);
    NoneMissing(cs, bs);
    assert changed == {} <==> !exists i <- bs.Keys :: i in cs && cs[i] != bs[i] by {
      if i :| i in bs && i in cs && cs[i] != bs[i] { assert i in changed; }
    }
    if removed != {} || changed != {} || sBreak { change := Breaking; }
    else if added != {} || sAppend { change := AppendOnly; }
    ok := true;
    if change == Identical {
      if cur.major != base.major || cur.minor != base.minor { ok := false; }
    } else if change == AppendOnly {
      if !(cur.major == base.major && cur.minor > base.minor) { ok := false; }
    } else {
      if !(cur.major > base.major) { ok := false; }
    }
  }

  lemma NamesPrefix(base: seq<Slot>, cur: seq<Slot>)
    ensures Names(base) <= Names(cur) <==>
      |base| <= |cur| && forall k | 0 <= k < |base| :: base[k].id == cur[k].id && base[k].name == cur[k].name
  {
    if Names(base) <= Names(cur) {
      forall k | 0 <= k < |base| ensures base[k].id == cur[k].id && base[k].name == cur[k].name {
        assert Names(base)[k] == Names(cur)[k];
      }
    }
  }

  method GateExposureOrder(base: seq<Slot>, cur: seq<Slot>) returns (ok: bool)
    ensures ok <==> Names(base) <= Names(cur)
    ensures ok <==> |base| <= |cur| && forall k | 0 <= k < |base| :: base[k].id == cur[k].id && base[k].name == cur[k].name
  {
    NamesPrefix(base, cur);
    ok := true;
    if |cur| < |base| { return false; }
    var i := 0;
    while i < |base|
      invariant 0 <= i <= |base| && ok
      invariant forall k | 0 <= k < i :: base[k].id == cur[k].id && base[k].name == cur[k].name
    {
      if base[i].id != cur[i].id || base[i].name != cur[i].name { return false; }
      i := i + 1;
    }
  }
}
