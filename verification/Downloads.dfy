/**
 Any number of downloads through the shared pool, interleaved step by step: who has which
 transport, and what each client call gets to see of an options slice that all downloads of a
 repository append to.
 */
module Downloads {
  import opened Wrappers
  import Transport
  import Slices

  type Id = nat
  type TransportId = nat
  type Address = nat
  type TlsConfig = Transport.TlsConfig

  datatype Opt = Configured(name: string) | Own(transport: TransportId)

  /** A slice by address: the first len elements of the backing array at addr. */
  datatype View = View(addr: Address, len: nat)

  /** Where a download is; seen and tls are what its client call got. */
  datatype Phase =
    | Ready
    | Failed
    | Took(t: TransportId)
    | Prepared(t: TransportId)
    | Appended(t: TransportId, slice: View)
    | Called(t: TransportId, seen: seq<Opt>, tls: Option<TlsConfig>)
    | Cleared(t: TransportId, seen: seq<Opt>, tls: Option<TlsConfig>)
    | Finished(t: TransportId, seen: seq<Opt>, tls: Option<TlsConfig>)

  /** options is the repository's slice, config each download's TLS settings, puts every return to the pool. */
  datatype State = State(
    tls: map<TransportId, Option<TlsConfig>>, idle: set<TransportId>,
    heap: map<Address, seq<Opt>>, options: View,
    config: map<Id, Option<TlsConfig>>, phases: map<Id, Phase>, puts: seq<(Id, TransportId)>)

  /** The transport a download has in hand. */
  function InHand(p: Phase): Option<TransportId> {
    match p
    case Took(t) => Some(t)
    case Prepared(t) => Some(t)
    case Appended(t, _) => Some(t)
    case Called(t, _, _) => Some(t)
    case Cleared(t, _, _) => Some(t)
    case _ => None
  }

  /** What a step leaves open: the transport the pool hands out, where append puts a new array, its spare room. */
  datatype Choice = Fail | Go(t: TransportId, addr: Address, filler: seq<Opt>)

  function Moved(s: State, d: Id, p: Phase): State {
    s.(phases := s.phases[d := p])
  }

  ghost predicate WellPlaced(s: State, slice: View) {
    slice.addr in s.heap && slice.len <= |s.heap[slice.addr]|
  }

  function Spare(s: State): bool
    requires s.options.addr in s.heap
  {
    s.options.len < |s.heap[s.options.addr]|
  }

  /** append(r.Options, WithTransport(t)). */
  ghost predicate Append(s: State, d: Id, t: TransportId, a: Choice, s': State) {
    && a.Go? && WellPlaced(s, s.options)
    && var base := s.heap[s.options.addr];
       var n := s.options.len;
       var after := Slices.Appended(base, n, Own(t), a.filler);
       if n < |base|
       then s' == Moved(s, d, Appended(t, View(s.options.addr, n + 1))).(heap := s.heap[s.options.addr := after])
       else a.addr !in s.heap
            && s' == Moved(s, d, Appended(t, View(a.addr, n + 1))).(heap := s.heap[a.addr := after])
  }

  /** One step of download d. */
  ghost predicate Next(s: State, d: Id, a: Choice, s': State) {
    d in s.phases && d in s.config &&
    match s.phases[d]
    case Ready =>
      if a.Fail? then s' == Moved(s, d, Failed)
      else if a.t in s.idle then s' == Moved(s, d, Took(a.t)).(idle := s.idle - {a.t})
      else a.t !in s.tls && s' == Moved(s, d, Took(a.t)).(tls := s.tls[a.t := None])
    case Took(t) => s' == Moved(s, d, Prepared(t)).(tls := s.tls[t := s.config[d]])
    case Prepared(t) => Append(s, d, t, a, s')
    case Appended(t, slice) =>
      && WellPlaced(s, slice) && t in s.tls
      && s' == Moved(s, d, Called(t, s.heap[slice.addr][..slice.len], s.tls[t]))
    case Called(t, seen, tls) => s' == Moved(s, d, Cleared(t, seen, tls)).(tls := s.tls[t := None])
    case Cleared(t, seen, tls) =>
      s' == Moved(s, d, Finished(t, seen, tls)).(idle := s.idle + {t}, puts := s.puts + [(d, t)])
    case _ => false
  }

  /** The pool drops idle transports at will. */
  ghost predicate Drop(s: State, s': State) {
    s'.idle <= s.idle && s' == s.(idle := s'.idle)
  }

  ghost predicate Linked(s: State, s': State) {
    Drop(s, s') || exists d, a :: Next(s, d, a, s')
  }

  /** The visible elements of the repository's options. */
  ghost function Base(s: State): seq<Opt>
    requires WellPlaced(s, s.options)
  {
    s.heap[s.options.addr][..s.options.len]
  }

  ghost predicate Init(s: State) {
    && s.idle <= s.tls.Keys && (forall t :: t in s.idle ==> s.tls[t] == None)
    && WellPlaced(s, s.options)
    && s.phases.Keys == s.config.Keys && (forall d :: d in s.phases ==> s.phases[d] == Ready)
    && s.puts == []
  }

  ghost predicate Execution(trace: seq<State>) {
    && trace != [] && Init(trace[0])
    && forall n :: 0 <= n < |trace| - 1 ==> Linked(trace[n], trace[n + 1])
  }

  // ---------------------------------------------------------------- the pool

  /** The transports a download has given back, in order. */
  function Puts(puts: seq<(Id, TransportId)>, d: Id): seq<TransportId> {
    if puts == [] then []
    else
      var n := |puts| - 1;
      Puts(puts[..n], d) + if puts[n].0 == d then [puts[n].1] else []
  }

  /** The download's transport carries the download's TLS settings from set-up to the call, and none otherwise. */
  ghost predicate TlsAsNeeded(s: State, d: Id)
    requires d in s.phases && d in s.config
  {
    match s.phases[d]
    case Prepared(t) => t in s.tls && s.tls[t] == s.config[d]
    case Appended(t, _) => t in s.tls && s.tls[t] == s.config[d]
    case Called(_, _, tls) => tls == s.config[d]
    case Cleared(t, _, tls) => t in s.tls && s.tls[t] == None && tls == s.config[d]
    case Finished(_, _, tls) => tls == s.config[d]
    case _ => true
  }

  /** A transport is in the pool or in the hands of at most one download; a pooled one carries no TLS settings. */
  ghost predicate Ownership(s: State) {
    && s.idle <= s.tls.Keys && (forall t :: t in s.idle ==> s.tls[t] == None)
    && (forall d :: d in s.phases && InHand(s.phases[d]).Some? ==>
          InHand(s.phases[d]).value in s.tls && InHand(s.phases[d]).value !in s.idle)
    && (forall d, e :: d in s.phases && e in s.phases && d != e && InHand(s.phases[d]).Some? ==>
          InHand(s.phases[d]) != InHand(s.phases[e]))
  }

  /** Every call used its own download's settings. */
  ghost predicate OwnSettings(s: State) {
    && s.phases.Keys == s.config.Keys
    && forall d :: d in s.phases ==> TlsAsNeeded(s, d)
  }

  /** A finished download has given back its own transport, once, and no other has given back any. */
  ghost predicate PutOnce(s: State) {
    forall d :: d in s.phases ==> Puts(s.puts, d) == if s.phases[d].Finished? then [s.phases[d].t] else []
  }

  ghost predicate PoolInv(s: State) {
    Ownership(s) && OwnSettings(s) && PutOnce(s)
  }

  lemma PutsAdded(puts: seq<(Id, TransportId)>, d: Id, t: TransportId, e: Id)
    ensures Puts(puts + [(d, t)], e) == Puts(puts, e) + if d == e then [t] else []
  {
    assert (puts + [(d, t)])[..|puts|] == puts;
  }

  /** A step takes a pooled or a new transport, gives one back, or keeps what it has and may set it up. */
  ghost predicate HandMove(s: State, d: Id, s': State)
    requires d in s.phases
  {
    && d in s'.phases && s'.phases == s.phases[d := s'.phases[d]] && s'.config == s.config
    && var before, after := InHand(s.phases[d]), InHand(s'.phases[d]);
       if before == after then
         && s'.idle == s.idle && s'.tls.Keys == s.tls.Keys
         && forall t :: t in s.tls && before != Some(t) ==> s'.tls[t] == s.tls[t]
       else if before.Some? then
         after == None && s'.tls == s.tls && s'.idle == s.idle + {before.value} && s.phases[d].Cleared?
       else if after.value in s.idle then
         s'.tls == s.tls && s'.idle == s.idle - {after.value}
       else
         after.value !in s.tls && s'.tls == s.tls[after.value := None] && s'.idle == s.idle
  }

  lemma StepMovesHand(s: State, d: Id, a: Choice, s': State)
    requires Ownership(s) && Next(s, d, a, s')
    ensures HandMove(s, d, s')
  {
  }

  lemma OwnershipPreserved(s: State, d: Id, s': State)
    requires Ownership(s) && OwnSettings(s) && d in s.phases && HandMove(s, d, s')
    ensures Ownership(s')
  {
    assert TlsAsNeeded(s, d);
    var before, after := InHand(s.phases[d]), InHand(s'.phases[d]);
    hide InHand;
    if before != after && before.Some? {
      assert s'.tls[before.value] == None;
    }
  }

  /** The moving download's own part. */
  lemma OwnSettingsOfMover(s: State, d: Id, a: Choice, s': State)
    requires d in s.phases && d in s.config && TlsAsNeeded(s, d) && Next(s, d, a, s')
    ensures d in s'.phases && d in s'.config && TlsAsNeeded(s', d)
  {
  }

  lemma SettingsPreserved(s: State, d: Id, a: Choice, s': State)
    requires Ownership(s) && OwnSettings(s) && Next(s, d, a, s')
    ensures OwnSettings(s')
  {
    StepMovesHand(s, d, a, s');
    OwnSettingsOfMover(s, d, a, s');
    hide Next;
    forall e | e in s'.phases ensures TlsAsNeeded(s', e) {
      if e != d {
        assert TlsAsNeeded(s, e);
        assert InHand(s.phases[e]).Some? ==> InHand(s.phases[d]) != InHand(s.phases[e]);
      }
    }
  }

  lemma MovesButOne(s: State, d: Id, a: Choice, s': State)
    requires Next(s, d, a, s')
    ensures d in s.phases && d in s'.phases && s'.phases == s.phases[d := s'.phases[d]]
    ensures !s.phases[d].Finished? && (s'.phases[d].Finished? <==> s.phases[d].Cleared?)
    ensures s.phases[d].Cleared? ==> s'.phases[d].t == s.phases[d].t
    ensures s'.puts == s.puts + if s.phases[d].Cleared? then [(d, s.phases[d].t)] else []
  {
  }

  lemma PutOncePreserved(s: State, d: Id, a: Choice, s': State)
    requires PutOnce(s) && Next(s, d, a, s')
    ensures PutOnce(s')
  {
    MovesButOne(s, d, a, s');
    hide Next;
    forall e | e in s'.phases ensures Puts(s'.puts, e) == if s'.phases[e].Finished? then [s'.phases[e].t] else [] {
      if s.phases[d].Cleared? {
        PutsAdded(s.puts, d, s.phases[d].t, e);
      }
    }
  }

  lemma PoolPreserved(s: State, d: Id, a: Choice, s': State)
    requires PoolInv(s) && Next(s, d, a, s')
    ensures PoolInv(s')
  {
    StepMovesHand(s, d, a, s');
    hide Next, Ownership, OwnSettings, PutOnce;
    OwnershipPreserved(s, d, s');
    SettingsPreserved(s, d, a, s');
    PutOncePreserved(s, d, a, s');
  }

  lemma InitPool(s: State)
    requires Init(s)
    ensures PoolInv(s)
  {
  }

  lemma DropPreserves(s: State, s': State)
    requires PoolInv(s) && Drop(s, s')
    ensures PoolInv(s')
  {
  }

  lemma {:induction false} PoolProtocol(trace: seq<State>)
    requires Execution(trace)
    ensures PoolInv(trace[|trace| - 1])
  {
    hide Next, Init, Drop, PoolInv;
    var n := |trace| - 1;
    if n == 0 {
      InitPool(trace[0]);
    } else {
      PoolProtocol(trace[..n]);
      var s, s' := trace[n - 1], trace[n];
      assert Linked(trace[n - 1], trace[n - 1 + 1]);
      if Drop(s, s') {
        DropPreserves(s, s');
      } else {
        var d, a :| Next(s, d, a, s');
        PoolPreserved(s, d, a, s');
      }
    }
  }

  // ---------------------------------------------------------------- the options slice

  /** The client call of download d saw the configured options followed by its own transport. */
  ghost predicate SawOwn(p: Phase, base: seq<Opt>) {
    p.Called? || p.Cleared? || p.Finished? ==> p.seen == base + [Own(p.t)]
  }

  ghost predicate Isolated(s: State, base: seq<Opt>) {
    forall d :: d in s.phases ==> SawOwn(s.phases[d], base)
  }

  /** The slice a download is about to pass on still holds what its append put there. */
  ghost predicate SliceIntact(s: State, p: Phase, base: seq<Opt>) {
    p.Appended? ==> WellPlaced(s, p.slice) && s.heap[p.slice.addr][..p.slice.len] == base + [Own(p.t)]
  }

  /** The configured options are as they were when all started. */
  ghost predicate OptionsKept(s: State, start: State)
    requires WellPlaced(start, start.options)
  {
    && s.options == start.options && WellPlaced(s, s.options) && Base(s) == Base(start)
    && |s.heap[s.options.addr]| == |start.heap[start.options.addr]|
  }

  lemma OptionsPreserved(start: State, s: State, d: Id, a: Choice, s': State)
    requires WellPlaced(start, start.options) && OptionsKept(s, start) && Next(s, d, a, s')
    ensures OptionsKept(s', start)
  {
    if s.phases[d].Prepared? {
      assert s'.heap[s.options.addr][..s.options.len] == s.heap[s.options.addr][..s.options.len];
    }
  }

  /** Whatever the interleaving and the capacity, the visible options never change. */
  lemma {:induction false} VisibleOptionsNeverChange(trace: seq<State>)
    requires Execution(trace)
    ensures OptionsKept(trace[|trace| - 1], trace[0])
  {
    hide Next;
    var n := |trace| - 1;
    if n > 0 {
      VisibleOptionsNeverChange(trace[..n]);
      var s, s' := trace[n - 1], trace[n];
      assert Linked(trace[n - 1], trace[n - 1 + 1]);
      if !Drop(s, s') {
        var d, a :| Next(s, d, a, s');
        OptionsPreserved(trace[0], s, d, a, s');
      }
    }
  }

  ghost predicate AllIntact(s: State, base: seq<Opt>) {
    forall d :: d in s.phases ==> SliceIntact(s, s.phases[d], base) && SawOwn(s.phases[d], base)
  }

  /** No two downloads have a transport in hand at the same time. */
  ghost predicate Solo(s: State) {
    forall d, e :: d in s.phases && e in s.phases && d != e && InHand(s.phases[d]).Some? ==> InHand(s.phases[e]) == None
  }

  /** A step keeps all slices intact if append has to copy, or if nobody else is between append and call. */
  lemma IntactPreserved(s: State, base: seq<Opt>, d: Id, a: Choice, s': State)
    requires WellPlaced(s, s.options) && Base(s) == base && AllIntact(s, base) && Next(s, d, a, s')
    requires !Spare(s) || Solo(s)
    ensures AllIntact(s', base)
  {
    forall e | e in s'.phases ensures SliceIntact(s', s'.phases[e], base) && SawOwn(s'.phases[e], base) {
      assert SliceIntact(s, s.phases[e], base) && SawOwn(s.phases[e], base);
      if e == d && s.phases[d].Prepared? {
        var n, own := s.options.len, Own(s.phases[d].t);
        assert s'.heap[s'.phases[d].slice.addr][..n + 1] == base + [own];
      }
    }
  }

  lemma {:induction false} IntactHolds(trace: seq<State>)
    requires Execution(trace)
    requires !Spare(trace[0]) || forall n :: 0 <= n < |trace| ==> Solo(trace[n])
    ensures OptionsKept(trace[|trace| - 1], trace[0])
    ensures AllIntact(trace[|trace| - 1], Base(trace[0]))
  {
    hide Next, AllIntact;
    var n := |trace| - 1;
    VisibleOptionsNeverChange(trace);
    if n == 0 {
      NothingStarted(trace[0]);
    } else {
      IntactHolds(trace[..n]);
      var s, s' := trace[n - 1], trace[n];
      assert Linked(trace[n - 1], trace[n - 1 + 1]);
      if Drop(s, s') {
        DropKeepsIntact(s, Base(trace[0]), s');
      } else {
        var d, a :| Next(s, d, a, s');
        IntactPreserved(s, Base(trace[0]), d, a, s');
      }
    }
  }

  lemma NothingStarted(s: State)
    requires Init(s)
    ensures AllIntact(s, Base(s))
  {
  }

  lemma DropKeepsIntact(s: State, base: seq<Opt>, s': State)
    requires Drop(s, s') && AllIntact(s, base)
    ensures AllIntact(s', base)
  {
    forall d | d in s'.phases ensures SliceIntact(s', s'.phases[d], base) && SawOwn(s'.phases[d], base) {
      assert SliceIntact(s, s.phases[d], base) && SawOwn(s.phases[d], base);
    }
  }

  /** Downloads that do not overlap are isolated, whatever the capacity of the slice. */
  lemma NonOverlappingDownloadsAreIsolated(trace: seq<State>)
    requires Execution(trace) && forall n :: 0 <= n < |trace| ==> Solo(trace[n])
    ensures Isolated(trace[|trace| - 1], Base(trace[0]))
  {
    hide Next;
    IntactHolds(trace);
  }

  // ---------------------------------------------------------------- one download alone

  /** Takes a transport and sets it up. */
  lemma AloneUpToSetUp(s0: State, s1: State, s2: State, d: Id, a0: Choice, a1: Choice)
    requires Ownership(s0) && d in s0.phases && d in s0.config && s0.phases[d] == Ready && a0.Go?
    requires Next(s0, d, a0, s1) && Next(s1, d, a1, s2)
    ensures s2.options == s0.options && s2.heap == s0.heap && s2.config == s0.config
    ensures a0.t in s0.idle || a0.t !in s0.tls
    ensures s2.idle == s0.idle - {a0.t} && s2.tls == s0.tls[a0.t := s0.config[d]]
    ensures d in s2.phases && s2.phases[d] == Prepared(a0.t)
  {
  }

  /** Appends its option. */
  lemma AloneAppends(s2: State, s3: State, d: Id, a2: Choice)
    requires WellPlaced(s2, s2.options) && d in s2.phases && s2.phases[d].Prepared? && Next(s2, d, a2, s3)
    ensures s3.options == s2.options && WellPlaced(s3, s3.options) && Base(s3) == Base(s2)
    ensures s3.config == s2.config && s3.idle == s2.idle && s3.tls == s2.tls
    ensures d in s3.phases && s3.phases[d].Appended? && s3.phases[d].t == s2.phases[d].t
    ensures SliceIntact(s3, s3.phases[d], Base(s2))
  {
    var n := s2.options.len;
    assert s3.heap[s2.options.addr][..n] == Base(s2);
    assert s3.heap[s3.phases[d].slice.addr][..n + 1] == Base(s2) + [Own(s2.phases[d].t)];
  }

  /**
   A download with nobody in between does what DownloadChart does as a whole: one call with the
   configured options, an own transport and the download's settings; then the transport is back in
   the pool without them, and pool, options and other transports are as before.
   */
  lemma AloneAsDownloadChart(s0: State, s1: State, s2: State, s3: State, s4: State, s5: State, s6: State, d: Id,
                             a0: Choice, a1: Choice, a2: Choice, a3: Choice, a4: Choice, a5: Choice)
      returns (t: TransportId)
    requires Ownership(s0) && WellPlaced(s0, s0.options) && d in s0.phases && d in s0.config && s0.phases[d] == Ready && a0.Go?
    requires Next(s0, d, a0, s1) && Next(s1, d, a1, s2) && Next(s2, d, a2, s3)
    requires Next(s3, d, a3, s4) && Next(s4, d, a4, s5) && Next(s5, d, a5, s6)
    ensures d in s6.phases && s6.phases[d] == Finished(t, Base(s0) + [Own(t)], s0.config[d])
    ensures t in s0.idle || t !in s0.tls
    ensures s6.idle == s0.idle + {t} && s6.tls == s0.tls[t := None]
    ensures s6.options == s0.options && WellPlaced(s6, s6.options) && Base(s6) == Base(s0)
  {
    hide Next, Ownership, SliceIntact;
    t := a0.t;
    AloneUpToSetUp(s0, s1, s2, d, a0, a1);
    AloneAppends(s2, s3, d, a2);
    AloneFromAppend(s3, s4, s5, s6, d, Base(s0), a3, a4, a5);
    assert s0.idle - {t} + {t} == s0.idle + {t};
    assert s0.tls[t := s0.config[d]][t := None] == s0.tls[t := None];
  }

  /** Makes its call, clears the transport and gives it back. */
  lemma AloneFromAppend(s3: State, s4: State, s5: State, s6: State, d: Id, base: seq<Opt>, a3: Choice, a4: Choice, a5: Choice)
    requires d in s3.phases && s3.phases[d].Appended? && SliceIntact(s3, s3.phases[d], base) && WellPlaced(s3, s3.options)
    requires Next(s3, d, a3, s4) && Next(s4, d, a4, s5) && Next(s5, d, a5, s6)
    ensures s6.options == s3.options && s6.heap == s3.heap && s6.config == s3.config
    ensures var t := s3.phases[d].t;
            && s6.idle == s3.idle + {t} && s6.tls == s3.tls[t := None] && t in s3.tls
            && d in s6.phases && s6.phases[d] == Finished(t, base + [Own(t)], s3.tls[t])
  {
  }

  // ---------------------------------------------------------------- spare capacity

  lemma Above(ids: set<nat>) returns (n: nat)
    ensures forall i :: i in ids ==> i < n
  {
    if ids == {} {
      n := 0;
    } else {
      var i :| i in ids;
      var rest := Above(ids - {i});
      n := if i < rest then rest else i + 1;
      assert forall k :: k in ids ==> k == i || k in ids - {i};
    }
  }

  /** A download takes a new transport and sets it up. */
  lemma TwoSteps(s: State, d: Id, t: TransportId) returns (s1: State, s2: State)
    requires d in s.phases && d in s.config && s.phases[d] == Ready && t !in s.tls && t !in s.idle
    ensures Linked(s, s1) && Linked(s1, s2)
    ensures s2 == Moved(s, d, Prepared(t)).(tls := s.tls[t := s.config[d]])
  {
    s1 := Moved(s, d, Took(t)).(tls := s.tls[t := None]);
    assert Next(s, d, Go(t, 0, []), s1);
    s2 := Moved(s1, d, Prepared(t)).(tls := s1.tls[t := s.config[d]]);
    assert Next(s1, d, Go(t, 0, []), s2);
    assert s2.tls == s.tls[t := s.config[d]] && s2.phases == s.phases[d := Prepared(t)];
  }

  /** Both append in place, the second over the first, and then the first makes its call. */
  lemma ThreeSteps(s: State, d: Id, e: Id, t: TransportId, u: TransportId) returns (s1: State, s2: State, s3: State)
    requires d in s.phases && e in s.phases && d in s.config && e in s.config && d != e
    requires s.phases[d] == Prepared(t) && s.phases[e] == Prepared(u) && t in s.tls
    requires WellPlaced(s, s.options) && Spare(s)
    ensures Linked(s, s1) && Linked(s1, s2) && Linked(s2, s3)
    ensures d in s3.phases && s3.phases[d] == Called(t, Base(s) + [Own(u)], s.tls[t])
  {
    var base, n := s.heap[s.options.addr], s.options.len;
    var slice := View(s.options.addr, n + 1);
    s1 := Moved(s, d, Appended(t, slice)).(heap := s.heap[s.options.addr := base[n := Own(t)]]);
    assert Append(s, d, t, Go(t, 0, []), s1);
    assert Next(s, d, Go(t, 0, []), s1);
    var base1 := s1.heap[s.options.addr];
    s2 := Moved(s1, e, Appended(u, slice)).(heap := s1.heap[s.options.addr := base1[n := Own(u)]]);
    assert Append(s1, e, u, Go(u, 0, []), s2);
    assert Next(s1, e, Go(u, 0, []), s2);
    s3 := Moved(s2, d, Called(t, s2.heap[s.options.addr][..n + 1], s2.tls[t]));
    assert Next(s2, d, Go(t, 0, []), s3);
    assert s2.heap[s.options.addr][..n + 1] == Base(s) + [Own(u)];
  }

  /** With spare capacity and two downloads, one call can be made with the other's transport. */
  lemma SpareCapacityMixesTransports(s: State, d: Id, e: Id) returns (trace: seq<State>)
    requires Init(s) && Spare(s) && d in s.phases && e in s.phases && d != e
    ensures Execution(trace) && trace[0] == s && !Isolated(trace[|trace| - 1], Base(s))
  {
    hide Next;
    var t := Above(s.tls.Keys);
    var s1, s2 := TwoSteps(s, d, t);
    var s3, s4 := TwoSteps(s2, e, t + 1);
    var s5, s6, s7 := ThreeSteps(s4, d, e, t, t + 1);
    trace := [s, s1, s2, s3, s4, s5, s6, s7];
    assert Base(s4) == Base(s);
    assert (Base(s) + [Own(t + 1)])[|Base(s)|] != (Base(s) + [Own(t)])[|Base(s)|];
    assert !SawOwn(s7.phases[d], Base(s));
  }

  /**
   Every client call in every interleaving sees the configured options followed by its own
   transport exactly when the repository's options slice has no spare capacity.
   */
  lemma IsolatedExactlyWithoutSpare(s: State, d: Id, e: Id)
    requires Init(s) && d in s.phases && e in s.phases && d != e
    ensures !Spare(s) <==>
            forall trace :: Execution(trace) && trace[0] == s ==> Isolated(trace[|trace| - 1], Base(s))
  {
    assert WellPlaced(s, s.options);
    hide Next, Init;
    if Spare(s) {
      var trace := SpareCapacityMixesTransports(s, d, e);
    } else {
      forall trace | Execution(trace) && trace[0] == s ensures Isolated(trace[|trace| - 1], Base(s)) {
        IntactHolds(trace);
      }
    }
  }
}
