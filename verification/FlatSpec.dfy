/** The reference a cache must be indistinguishable from: a flat byte memory that answers one
    load at a time, and what a core can observe of it over a run. */
module FlatSpec {
  import opened Options
  import opened MemTypes

  /** The memory, and the data owed to a load that has been accepted but not answered. */
  datatype Spec = Spec(mem: Flat, out: Option<Word32>)

  /** What the core observes in one cycle: an accepted request, a load response. */
  datatype Obs = Obs(acc: Option<Req>, rsp: Option<Word32>)

  /** A response is the data owed; a request is accepted only when nothing stays owed; stores and
      loads take effect in the order of acceptance. */
  ghost predicate SpecStep(sp: Spec, o: Obs, sp': Spec) {
    && (o.rsp.Some? ==> sp.out == o.rsp)
    && (o.acc.None? ==> sp'.mem == sp.mem && sp'.out == if o.rsp.Some? then None else sp.out)
    && (o.acc.Some? ==>
        var r := o.acc.value;
        && Aligned(r)
        && (sp.out.None? || o.rsp.Some?)
        && (if r.write then sp' == Spec(StoreTo(sp.mem, r), None)
            else sp' == Spec(sp.mem, Some(LoadFrom(sp.mem, r)))))
  }

  /** A load by its access type: the addressed bytes, then the sign or zeros. */
  lemma LoadMeaning(m: Flat, r: Req)
    requires Aligned(r)
    ensures var a, w := r.addr, LoadFrom(m, r);
      match r.dtype
      case Word => w == m[a..a + 4]
      case UByte => w == [m[a], 0, 0, 0]
      case UHalf => w == [m[a], m[a + 1], 0, 0]
      case Byte => var s: byte := if m[a] >= 128 then 255 else 0; w == [m[a], s, s, s]
      case Half => var s: byte := if m[a + 1] >= 128 then 255 else 0; w == [m[a], m[a + 1], s, s]
  {
  }

  function ToSeq<T>(o: Option<T>): seq<T> { if o.Some? then [o.value] else [] }

  function Reqs(obs: seq<Obs>): seq<Req> {
    if obs == [] then [] else ToSeq(obs[0].acc) + Reqs(obs[1..])
  }

  function Rsps(obs: seq<Obs>): seq<Word32> {
    if obs == [] then [] else ToSeq(obs[0].rsp) + Rsps(obs[1..])
  }

  ghost predicate SpecRun(sps: seq<Spec>, obs: seq<Obs>) {
    && |sps| == |obs| + 1
    && forall k :: 0 <= k < |obs| ==> SpecStep(sps[k], obs[k], sps[k + 1])
  }

  ghost predicate AllAligned(reqs: seq<Req>) { forall k :: 0 <= k < |reqs| ==> Aligned(reqs[k]) }

  lemma FlatCons(m: Flat, r: Req, rest: seq<Req>)
    requires Aligned(r) && AllAligned(rest)
    ensures var m' := if r.write then StoreTo(m, r) else m;
      && FlatLoads(m, [r] + rest) == (if r.write then [] else [LoadFrom(m, r)]) + FlatLoads(m', rest)
      && FlatAfter(m, [r] + rest) == FlatAfter(m', rest)
  {
    assert ([r] + rest)[1..] == rest;
  }

  lemma Bookkeeping<T>(owed: seq<T>, loaded: seq<T>, now: seq<T>, owed': seq<T>, later: seq<T>, rsps: seq<T>, end: seq<T>)
    requires owed + loaded == now + owed'
    requires owed' + later == rsps + end
    ensures owed + (loaded + later) == (now + rsps) + end
  {
    assert owed + (loaded + later) == (owed + loaded) + later;
    assert (now + owed') + later == now + (owed' + later);
    assert now + (rsps + end) == (now + rsps) + end;
  }

  function LoadedBy(m: Flat, o: Obs): seq<Word32>
    requires o.acc.Some? ==> Aligned(o.acc.value)
  {
    if o.acc.Some? && !o.acc.value.write then [LoadFrom(m, o.acc.value)] else []
  }

  lemma OwedStep(sp: Spec, o: Obs, sp': Spec)
    requires SpecStep(sp, o, sp')
    ensures ToSeq(sp.out) + LoadedBy(sp.mem, o) == ToSeq(o.rsp) + ToSeq(sp'.out)
  {
  }

  lemma FlatStep(sp: Spec, o: Obs, sp': Spec, rest: seq<Req>)
    requires SpecStep(sp, o, sp') && AllAligned(rest)
    ensures AllAligned(ToSeq(o.acc) + rest)
    ensures FlatLoads(sp.mem, ToSeq(o.acc) + rest) == LoadedBy(sp.mem, o) + FlatLoads(sp'.mem, rest)
    ensures FlatAfter(sp.mem, ToSeq(o.acc) + rest) == FlatAfter(sp'.mem, rest)
  {
    if o.acc.Some? {
      FlatCons(sp.mem, o.acc.value, rest);
    } else {
      assert ToSeq(o.acc) + rest == rest;
    }
  }

  /** What was owed plus the loads of the accepted requests, executed one after the other on the
      flat memory, is what came back plus what is still owed. */
  lemma {:induction false} SpecRunLoads(sps: seq<Spec>, obs: seq<Obs>)
    requires SpecRun(sps, obs)
    ensures AllAligned(Reqs(obs))
    ensures ToSeq(sps[0].out) + FlatLoads(sps[0].mem, Reqs(obs)) == Rsps(obs) + ToSeq(sps[|obs|].out)
    ensures sps[|obs|].mem == FlatAfter(sps[0].mem, Reqs(obs))
    decreases |obs|
  {
    if obs != [] {
      var o, sp, sp' := obs[0], sps[0], sps[1];
      assert SpecStep(sp, o, sp');
      SpecRunLoads(sps[1..], obs[1..]);
      OwedStep(sp, o, sp');
      FlatStep(sp, o, sp', Reqs(obs[1..]));
      Bookkeeping(ToSeq(sp.out), LoadedBy(sp.mem, o), ToSeq(o.rsp), ToSeq(sp'.out),
        FlatLoads(sp'.mem, Reqs(obs[1..])), Rsps(obs[1..]), ToSeq(sps[|obs|].out));
    }
  }
}
