/** The override chain: the emitted roth_next_<fn> on a shared cursor, and the dispatch thunk that starts
    it (tools/sdk_gen.py, tools/gen_override_dispatch.py). */
module OverrideChain {
  import opened Options

  /** An override callback, as anything that can happen in one: after the results of its next calls so far
      it either calls next with some arguments -- up to `limit` times -- or returns. */
  datatype Callback<!A, !R> = Callback(limit: nat, wants: (A, seq<R>) -> Option<A>, result: (A, seq<R>) -> R)

  /** The immutable part of the chain struct. */
  datatype Links<!A, !R> = Links(slots: seq<Callback<A, R>>, base: A -> R)

  datatype Event<A> = Enter(slot: nat, a: A) | Base(a: A)

  datatype Out<A, R> = Out(ret: R, cursor: nat, trace: seq<Event<A>>)

  // ---------------------------------------------------------------------- specification

  /** Call the next link at `cursor`, or the base when there is none left. */
  function Next<A, R>(links: Links<A, R>, cursor: nat, a: A): (o: Out<A, R>)
    requires cursor <= |links.slots|
    ensures cursor <= o.cursor <= |links.slots|
    decreases |links.slots| - cursor, 0
  {
    if cursor >= |links.slots| then Out(links.base(a), cursor, [Base(a)])
    else
      var o := Body(links, links.slots[cursor], a, [], cursor + 1);
      o.(trace := [Enter(cursor, a)] + o.trace)
  }

  /** Run a callback that has the results `rs` of its next calls so far. */
  function Body<A, R>(links: Links<A, R>, cb: Callback<A, R>, a: A, rs: seq<R>, cursor: nat): (o: Out<A, R>)
    requires cursor <= |links.slots| && |rs| <= cb.limit
    ensures cursor <= o.cursor <= |links.slots|
    decreases |links.slots| - cursor, 1 + cb.limit - |rs|
  {
    if |rs| < cb.limit && cb.wants(a, rs).Some? then
      var o := Next(links, cursor, cb.wants(a, rs).value);
      var p := Body(links, cb, a, rs + [o.ret], o.cursor);
      Out(p.ret, p.cursor, o.trace + p.trace)
    else Out(cb.result(a, rs), cursor, [])
  }

  /** The dispatch thunk: slot 0 entered directly, with the cursor at 1. */
  function Dispatch<A, R>(links: Links<A, R>, a: A): Out<A, R>
    requires 0 < |links.slots|
  {
    var o := Body(links, links.slots[0], a, [], 1);
    o.(trace := [Enter(0, a)] + o.trace)
  }

  // -------------------------------------------------------------------------- properties

  function Entered<A>(trace: seq<Event<A>>): seq<nat> {
    if trace == [] then []
    else (if trace[0].Enter? then [trace[0].slot] else []) + Entered(trace[1..])
  }

  function Range(from: nat, end: nat): seq<nat>
    requires from <= end
  {
    seq(end - from, (i: nat) => from + i)
  }

  /** The base is entered only when the chain, started at `cursor`, has been walked to its end. */
  predicate BaseLast<A>(trace: seq<Event<A>>, cursor: nat, n: nat) {
    forall k | 0 <= k < |trace| && trace[k].Base? :: cursor + |Entered(trace[..k])| == n
  }

  lemma {:induction false} EnteredConcat<A>(s: seq<Event<A>>, t: seq<Event<A>>)
    ensures Entered(s + t) == Entered(s) + Entered(t)
  {
    if s == [] {
      assert s + t == t;
    } else {
      assert (s + t)[1..] == s[1..] + t;
      EnteredConcat(s[1..], t);
      var head := if s[0].Enter? then [s[0].slot] else [];
      assert Entered(s + t) == head + (Entered(s[1..]) + Entered(t)) == (head + Entered(s[1..])) + Entered(t);
    }
  }

  lemma BaseLastConcat<A>(s: seq<Event<A>>, t: seq<Event<A>>, cursor: nat, n: nat)
    requires BaseLast(s, cursor, n) && BaseLast(t, cursor + |Entered(s)|, n)
    ensures BaseLast(s + t, cursor, n)
  {
    forall k | 0 <= k < |s + t| && (s + t)[k].Base? ensures cursor + |Entered((s + t)[..k])| == n {
      if k < |s| {
        assert (s + t)[..k] == s[..k];
      } else {
        assert (s + t)[..k] == s + t[..k - |s|];
        EnteredConcat(s, t[..k - |s|]);
      }
    }
  }

  lemma {:induction false} NextDiscipline<A, R>(links: Links<A, R>, cursor: nat, a: A)
    requires cursor <= |links.slots|
    ensures var o := Next(links, cursor, a);
      Entered(o.trace) == Range(cursor, o.cursor) && BaseLast(o.trace, cursor, |links.slots|)
    decreases |links.slots| - cursor, 0
  {
    if cursor < |links.slots| {
      BodyDiscipline(links, links.slots[cursor], a, [], cursor + 1);
      EnterFirst(Body(links, links.slots[cursor], a, [], cursor + 1), cursor, a, |links.slots|);
    }
  }

  /** Entering slot `cursor` in front of a disciplined trace from `cursor + 1` on. */
  lemma EnterFirst<A, R>(o: Out<A, R>, cursor: nat, a: A, n: nat)
    requires cursor + 1 <= o.cursor && Entered(o.trace) == Range(cursor + 1, o.cursor) && BaseLast(o.trace, cursor + 1, n)
    ensures Entered([Enter(cursor, a)] + o.trace) == Range(cursor, o.cursor) && BaseLast([Enter(cursor, a)] + o.trace, cursor, n)
  {
    var first := [Enter(cursor, a)];
    assert Entered(first) == [cursor];
    EnteredConcat(first, o.trace);
    BaseLastConcat(first, o.trace, cursor, n);
    assert [cursor] + Range(cursor + 1, o.cursor) == Range(cursor, o.cursor);
  }

  lemma {:induction false} BodyDiscipline<A, R>(links: Links<A, R>, cb: Callback<A, R>, a: A, rs: seq<R>, cursor: nat)
    requires cursor <= |links.slots| && |rs| <= cb.limit
    ensures var o := Body(links, cb, a, rs, cursor);
      Entered(o.trace) == Range(cursor, o.cursor) && BaseLast(o.trace, cursor, |links.slots|)
    decreases |links.slots| - cursor, 1 + cb.limit - |rs|
  {
    if |rs| < cb.limit && cb.wants(a, rs).Some? {
      var o := Next(links, cursor, cb.wants(a, rs).value);
      var p := Body(links, cb, a, rs + [o.ret], o.cursor);
      NextDiscipline(links, cursor, cb.wants(a, rs).value);
      BodyDiscipline(links, cb, a, rs + [o.ret], o.cursor);
      EnteredConcat(o.trace, p.trace);
      BaseLastConcat(o.trace, p.trace, cursor, |links.slots|);
    }
  }

  /** Whatever the callbacks do -- call next never, once or often -- one dispatch enters exactly the slots
      0..m-1 for some m, in order and each once, and runs the base only after all n were entered. */
  lemma DispatchDiscipline<A, R>(links: Links<A, R>, a: A)
    requires 0 < |links.slots|
    ensures var o := Dispatch(links, a);
      && 1 <= o.cursor <= |links.slots|
      && Entered(o.trace) == Range(0, o.cursor)
      && forall k | 0 <= k < |o.trace| && o.trace[k].Base? :: |Entered(o.trace[..k])| == |links.slots|
  {
    BodyDiscipline(links, links.slots[0], a, [], 1);
    EnterFirst(Body(links, links.slots[0], a, [], 1), 0, a, |links.slots|);
  }

  /** A callback sees the results of its next calls in the order of the calls: `rs` are the results, `at[k]` is the
      cursor in front of call `k`, each call starts where the one before it left the cursor, and the callback stops
      when it wants no further one. */
  ghost predicate Called<A, R>(links: Links<A, R>, cb: Callback<A, R>, a: A, rs: seq<R>, at: seq<nat>, k: nat)
    requires k < |rs| && |at| == |rs| + 1
  {
    && cb.wants(a, rs[..k]).Some? && at[k] <= |links.slots|
    && var n := Next(links, at[k], cb.wants(a, rs[..k]).value); rs[k] == n.ret && at[k + 1] == n.cursor
  }

  lemma {:induction false} BodyCalls<A, R>(links: Links<A, R>, cb: Callback<A, R>, a: A, rs0: seq<R>, at0: seq<nat>)
    returns (rs: seq<R>, at: seq<nat>)
    requires |rs0| <= cb.limit && |at0| == |rs0| + 1 && at0[|rs0|] <= |links.slots|
    requires forall k: nat | k < |rs0| :: Called(links, cb, a, rs0, at0, k)
    ensures |rs| <= cb.limit && |at| == |rs| + 1 && at[0] == at0[0] && forall k: nat | k < |rs| :: Called(links, cb, a, rs, at, k)
    ensures |rs| == cb.limit || cb.wants(a, rs).None?
    ensures var o := Body(links, cb, a, rs0, at0[|rs0|]); o.ret == cb.result(a, rs) && o.cursor == at[|rs|]
    decreases cb.limit - |rs0|
  {
    if |rs0| < cb.limit && cb.wants(a, rs0).Some? {
      var o := Next(links, at0[|rs0|], cb.wants(a, rs0).value);
      var rs1, at1 := rs0 + [o.ret], at0 + [o.cursor];
      forall k: nat | k < |rs1| ensures Called(links, cb, a, rs1, at1, k) {
        if k < |rs0| {
          assert Called(links, cb, a, rs0, at0, k) && rs1[..k] == rs0[..k];
        } else {
          assert rs1[..k] == rs0;
        }
      }
      rs, at := BodyCalls(links, cb, a, rs1, at1);
    } else {
      rs, at := rs0, at0;
    }
  }

  /** So a dispatch answers what the first callback makes of its next calls' results, in their order. */
  lemma DispatchCalls<A, R>(links: Links<A, R>, a: A) returns (rs: seq<R>, at: seq<nat>)
    requires 0 < |links.slots|
    ensures var cb := links.slots[0];
      && |rs| <= cb.limit && |at| == |rs| + 1 && at[0] == 1
      && (forall k: nat | k < |rs| :: Called(links, cb, a, rs, at, k))
      && (|rs| == cb.limit || cb.wants(a, rs).None?)
      && Dispatch(links, a).ret == cb.result(a, rs) && Dispatch(links, a).cursor == at[|rs|]
  {
    rs, at := BodyCalls(links, links.slots[0], a, [], [1]);
  }

  /** A callback that calls next exactly once, whatever it is passed. */
  ghost predicate CallsOnce<A(!new), R(!new)>(cb: Callback<A, R>) {
    && 0 < cb.limit
    && (forall a :: cb.wants(a, []).Some?)
    && (forall a, r :: cb.limit > 1 ==> cb.wants(a, [r]).None?)
  }

  /** The composition of the links from `i` on around the base. */
  function Compose<A, R>(links: Links<A, R>, i: nat, a: A): R
    requires i <= |links.slots|
    decreases |links.slots| - i
  {
    if i == |links.slots| then links.base(a)
    else
      var cb := links.slots[i];
      cb.result(a, [Compose(links, i + 1, if cb.wants(a, []).Some? then cb.wants(a, []).value else a)])
  }

  function Bases<A>(trace: seq<Event<A>>): nat {
    if trace == [] then 0 else (if trace[0].Base? then 1 else 0) + Bases(trace[1..])
  }

  lemma {:induction false} BasesConcat<A>(s: seq<Event<A>>, t: seq<Event<A>>)
    ensures Bases(s + t) == Bases(s) + Bases(t)
  {
    if s == [] {
      assert s + t == t;
    } else {
      assert (s + t)[1..] == s[1..] + t;
      BasesConcat(s[1..], t);
    }
  }

  lemma {:induction false} NextComposes<A(!new), R(!new)>(links: Links<A, R>, cursor: nat, a: A)
    requires cursor <= |links.slots| && forall cb <- links.slots :: CallsOnce(cb)
    ensures var o := Next(links, cursor, a);
      o.ret == Compose(links, cursor, a) && o.cursor == |links.slots| && Bases(o.trace) == 1
    decreases |links.slots| - cursor, 0
  {
    if cursor < |links.slots| {
      var cb := links.slots[cursor];
      BodyComposes(links, cb, a, cursor + 1);
      BasesConcat([Enter(cursor, a)], Body(links, cb, a, [], cursor + 1).trace);
    }
  }

  lemma {:induction false} BodyComposes<A(!new), R(!new)>(links: Links<A, R>, cb: Callback<A, R>, a: A, cursor: nat)
    requires cursor <= |links.slots| && CallsOnce(cb) && forall c <- links.slots :: CallsOnce(c)
    ensures var o := Body(links, cb, a, [], cursor);
      && o.ret == cb.result(a, [Compose(links, cursor, cb.wants(a, []).value)])
      && o.cursor == |links.slots| && Bases(o.trace) == 1
    decreases |links.slots| - cursor, 1
  {
    var inner := Next(links, cursor, cb.wants(a, []).value);
    NextComposes(links, cursor, cb.wants(a, []).value);
    assert [] + [inner.ret] == [inner.ret];
    assert Body(links, cb, a, [inner.ret], inner.cursor) == Out(cb.result(a, [inner.ret]), inner.cursor, []);
    assert inner.trace + [] == inner.trace;
  }

  /** When every callback calls next once, the dispatch is the composition of all of them around exactly
      one call of the base. */
  lemma DispatchComposes<A(!new), R(!new)>(links: Links<A, R>, a: A)
    requires 0 < |links.slots| && forall cb <- links.slots :: CallsOnce(cb)
    ensures var o := Dispatch(links, a);
      o.ret == Compose(links, 0, a) && o.cursor == |links.slots| && Bases(o.trace) == 1
  {
    BodyComposes(links, links.slots[0], a, 1);
    BasesConcat([Enter(0, a)], Body(links, links.slots[0], a, [], 1).trace);
  }

  // ----------------------------------------------------------------------- implementation

  /** The invocation-local chain struct. */
  class Chain<!A, !R> {
    const links: Links<A, R>
    var cursor: nat
    /** What was entered so far. */
    ghost var trace: seq<Event<A>>

    constructor (links: Links<A, R>, cursor: nat)
      ensures this.links == links && this.cursor == cursor && trace == []
    {
      this.links, this.cursor, trace := links, cursor, [];
    }

    method CallNext(a: A) returns (ret: R)
      requires cursor <= |links.slots|
      modifies this
      ensures var o := Next(links, old(cursor), a);
        ret == o.ret && cursor == o.cursor && trace == old(trace) + o.trace
      decreases |links.slots| - cursor, 0
    {
      if cursor >= |links.slots| {
        trace := trace + [Base(a)];
        return links.base(a);
      }
      cursor := cursor + 1;
      trace := trace + [Enter(cursor - 1, a)];
      ret := RunCallback(links.slots[cursor - 1], a, []);
    }

    method RunCallback(cb: Callback<A, R>, a: A, rs0: seq<R>) returns (ret: R)
      requires cursor <= |links.slots| && |rs0| <= cb.limit
      modifies this
      ensures var o := Body(links, cb, a, rs0, old(cursor));
        ret == o.ret && cursor == o.cursor && trace == old(trace) + o.trace
      decreases |links.slots| - cursor, 1 + cb.limit - |rs0|
    {
      if |rs0| < cb.limit && cb.wants(a, rs0).Some? {
        var r := CallNext(cb.wants(a, rs0).value);
        ret := RunCallback(cb, a, rs0 + [r]);
      } else {
        ret := cb.result(a, rs0);
      }
    }

    /** The dispatch thunk. */
    static method DispatchCall(links: Links<A, R>, a: A) returns (ret: R, ghost entered: seq<Event<A>>)
      requires 0 < |links.slots|
      ensures ret == Dispatch(links, a).ret && entered == Dispatch(links, a).trace
    {
      var c := new Chain(links, 1);
      ret := c.RunCallback(links.slots[0], a, []);
      entered := [Enter(0, a)] + c.trace;
    }
  }
}
