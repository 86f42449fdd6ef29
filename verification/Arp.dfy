/**
 The ARP cache of arp.c under interleaving. A step is one critical section. arp_input and the timer run in one thread
 and take turns; arp_resolve may come between any two critical sections, also between the two of one arp_input.
 */
module Arp {
  import opened Base
  import opened Time

  const CACHE_SIZE: int := 32
  const CACHE_TIMEOUT: int := 30

  const FREE: byte := 0
  const INCOMPLETE: byte := 1
  const RESOLVED: byte := 2
  const STATIC: byte := 3

  const RESOLVE_INCOMPLETE: int := 0
  const RESOLVE_FOUND: int := 1

  datatype Cache = Cache(state: byte, pa: u32, ha: HwAddr, timestamp: Timeval)

  const DELETED := Cache(FREE, 0, [0, 0, 0, 0, 0, 0], Timeval(0, 0))

  datatype Message = Message(spa: u32, sha: HwAddr)

  /**
   * The cache, the hardware address last heard for each protocol address, the message that arp_input is about to
   * insert, and the clock at the last update or insertion for each protocol address.
   */
  datatype ArpState = ArpState(caches: seq<Cache>, heard: map<u32, HwAddr>, pending: Option<Message>,
                               refreshed: map<u32, Timeval>)

  // ---- Scans ----

  predicate Holds(c: Cache, pa: u32) { c.state != FREE && c.pa == pa }

  /** arp_cache_select returns the first entry that holds `pa`. */
  ghost predicate Selects(cs: seq<Cache>, pa: u32, r: Option<nat>) {
    match r
    case None => forall j :: 0 <= j < |cs| ==> !Holds(cs[j], pa)
    case Some(i) => i < |cs| && Holds(cs[i], pa) && forall j :: 0 <= j < i ==> !Holds(cs[j], pa)
  }

  ghost predicate Full(cs: seq<Cache>) { forall j :: 0 <= j < |cs| ==> cs[j].state != FREE }

  /** arp_cache_alloc returns the first free entry, or in a full cache the first of the oldest ones. */
  ghost predicate Allocates(cs: seq<Cache>, i: nat) {
    && i < |cs|
    && if cs[i].state == FREE then forall j :: 0 <= j < i ==> cs[j].state != FREE
       else
         && Full(cs)
         && (forall j :: 0 <= j < i ==> After(cs[j].timestamp, cs[i].timestamp))
         && (forall j :: i < j < |cs| ==> !After(cs[i].timestamp, cs[j].timestamp))
  }

  /** What the entry is when arp_cache_alloc returns it. */
  function Cleared(c: Cache): Cache { if c.state == FREE then c else DELETED }

  function Expired(c: Cache, now: Timeval): bool
    requires Normal(c.timestamp) && Normal(now)
  {
    c.state != FREE && c.state != STATIC && Sub(now, c.timestamp).sec > CACHE_TIMEOUT
  }

  predicate Clocks(cs: seq<Cache>) { forall i :: 0 <= i < |cs| ==> Normal(cs[i].timestamp) }

  function Swept(cs: seq<Cache>, now: Timeval): (r: seq<Cache>)
    requires Clocks(cs) && Normal(now)
    ensures |r| == |cs| && forall i :: 0 <= i < |cs| ==> r[i] == if Expired(cs[i], now) then DELETED else cs[i]
  {
    seq(|cs|, i requires 0 <= i < |cs| => if Expired(cs[i], now) then DELETED else cs[i])
  }

  // ---- Steps ----

  datatype Step =
    | ResolveHit(pa: u32, at: nat)
    | ResolveMiss(pa: u32, at: nat, now: Timeval)
    | Update(msg: Message, at: nat, now: Timeval)   // first section of arp_input, the address is cached
    | NoUpdate(msg: Message)                        // first section of arp_input, it is not
    | Insert(at: nat, now: Timeval)                 // second section, the message is for this host
    | NoInsert                                      // no second section, it is not
    | Timer(now: Timeval)

  ghost predicate Enabled(a: ArpState, s: Step) {
    match s
    case ResolveHit(pa, i) => Selects(a.caches, pa, Some(i))
    case ResolveMiss(pa, i, now) => Selects(a.caches, pa, None) && Allocates(a.caches, i) && Normal(now)
    case Update(m, i, now) => a.pending.None? && Selects(a.caches, m.spa, Some(i)) && Normal(now)
    case NoUpdate(m) => a.pending.None? && Selects(a.caches, m.spa, None)
    case Insert(i, now) => a.pending.Some? && Allocates(a.caches, i) && Normal(now)
    case NoInsert => a.pending.Some?
    case Timer(now) => a.pending.None? && Clocks(a.caches) && Normal(now)
  }

  ghost function Next(a: ArpState, s: Step): ArpState
    requires Enabled(a, s)
  {
    var cs := a.caches;
    match s
    case ResolveHit(_, _) => a
    case ResolveMiss(pa, i, now) =>
      // the state stored is ARP_RESOLVE_INCOMPLETE, which is the value of FREE
      a.(caches := cs[i := Cleared(cs[i]).(state := FREE, pa := pa, timestamp := now)])
    case Update(m, i, now) =>
      a.(caches := cs[i := cs[i].(state := RESOLVED, ha := m.sha, timestamp := now)], heard := a.heard[m.spa := m.sha],
         refreshed := a.refreshed[m.spa := now])
    case NoUpdate(m) => a.(heard := a.heard[m.spa := m.sha], pending := Some(m))
    case Insert(i, now) =>
      a.(caches := cs[i := Cache(RESOLVED, a.pending.value.spa, a.pending.value.sha, now)], pending := None,
         refreshed := a.refreshed[a.pending.value.spa := now])
    case NoInsert => a.(pending := None)
    case Timer(now) => a.(caches := Swept(cs, now))
  }

  /** No two entries hold one address, and every entry holds what was heard last. */
  ghost predicate Inv(a: ArpState) {
    && Clocks(a.caches)
    && (forall i, j :: 0 <= i < j < |a.caches| && a.caches[i].state != FREE && a.caches[j].state != FREE ==>
          a.caches[i].pa != a.caches[j].pa)
    && (forall i :: 0 <= i < |a.caches| && a.caches[i].state != FREE ==>
          Agrees(a.caches[i], a.heard) && Stamped(a.caches[i], a.refreshed))
    && (a.pending.Some? ==>
          && Agrees(Cache(RESOLVED, a.pending.value.spa, a.pending.value.sha, Timeval(0, 0)), a.heard)
          && Selects(a.caches, a.pending.value.spa, None))
  }

  predicate Agrees(c: Cache, heard: map<u32, HwAddr>) {
    c.state == RESOLVED && c.pa in heard && heard[c.pa] == c.ha
  }

  /** The timestamp is the clock at the last update or insertion. */
  predicate Stamped(c: Cache, refreshed: map<u32, Timeval>) { c.pa in refreshed && refreshed[c.pa] == c.timestamp }

  lemma StepKeeps(a: ArpState, s: Step)
    requires Inv(a) && Enabled(a, s)
    ensures Inv(Next(a, s)) && |Next(a, s).caches| == |a.caches|
  {
    match s
    case Update(m, i, now) => UpdateKeeps(a, s);
    case NoUpdate(m) =>
      forall j | 0 <= j < |a.caches| && a.caches[j].state != FREE ensures a.caches[j].pa != m.spa {
        assert !Holds(a.caches[j], m.spa);
      }
    case Insert(i, now) =>
      forall j | 0 <= j < |a.caches| && a.caches[j].state != FREE ensures a.caches[j].pa != a.pending.value.spa {
        assert !Holds(a.caches[j], a.pending.value.spa);
      }
    case ResolveMiss(_, _, _) => LessKeeps(a, Next(a, s));
    case Timer(_) => LessKeeps(a, Next(a, s));
    case _ =>
  }

  /** Entries that are only kept or freed. */
  lemma LessKeeps(a: ArpState, b: ArpState)
    requires Inv(a) && a.heard == b.heard && a.pending == b.pending && a.refreshed == b.refreshed
    requires |a.caches| == |b.caches|
    requires forall i :: 0 <= i < |a.caches| ==>
               b.caches[i] == a.caches[i] || (b.caches[i].state == FREE && Normal(b.caches[i].timestamp))
    ensures Inv(b)
  {
  }

  lemma UpdateKeeps(a: ArpState, s: Step)
    requires Inv(a) && s.Update? && Enabled(a, s)
    ensures Inv(Next(a, s))
  {
  }

  // ---- Runs ----

  ghost predicate IsRun(a: ArpState, steps: seq<Step>)
    decreases |steps|
  {
    steps != [] ==> Enabled(a, steps[0]) && IsRun(Next(a, steps[0]), steps[1..])
  }

  ghost function Run(a: ArpState, steps: seq<Step>): ArpState
    requires IsRun(a, steps)
    decreases |steps|
  {
    if steps == [] then a else Run(Next(a, steps[0]), steps[1..])
  }

  lemma {:induction false} RunKeeps(a: ArpState, steps: seq<Step>)
    requires Inv(a) && IsRun(a, steps)
    ensures Inv(Run(a, steps)) && |Run(a, steps).caches| == |a.caches|
    decreases |steps|
  {
    if steps == [] {
    } else {
      StepKeeps(a, steps[0]);
      RunKeeps(Next(a, steps[0]), steps[1..]);
    }
  }

  function Empty(): ArpState { ArpState(seq(CACHE_SIZE, _ => DELETED), map[], None, map[]) }

  /**
   * In every interleaving, from an empty cache: no two entries hold one address; an address is found exactly when some
   * entry holds it, and then what is found is the hardware address that was heard last.
   */
  lemma FoundIsLastHeard(steps: seq<Step>, pa: u32, r: Option<nat>)
    requires IsRun(Empty(), steps)
    requires Selects(Run(Empty(), steps).caches, pa, r)
    ensures var a := Run(Empty(), steps);
            && |a.caches| == CACHE_SIZE
            && (r.Some? <==> exists i :: 0 <= i < CACHE_SIZE && Holds(a.caches[i], pa))
            && (r.Some? ==>
                  && a.caches[r.value].state == RESOLVED && pa in a.heard && a.caches[r.value].ha == a.heard[pa]
                  && forall j :: 0 <= j < CACHE_SIZE && Holds(a.caches[j], pa) ==> j == r.value)
  {
    RunKeeps(Empty(), steps);
    var a := Run(Empty(), steps);
    if r.Some? {
      assert Holds(a.caches[r.value], pa);
    }
  }

  /**
   * An entry that holds an address stops doing so in three ways only: the timer finds it 31 seconds old; it is the
   * oldest of a full cache when arp_resolve misses; or it is that when arp_input inserts.
   */
  lemma LostOnlyWhen(a: ArpState, s: Step, i: nat)
    requires Inv(a) && Enabled(a, s) && i < |a.caches| && a.caches[i].state != FREE
    ensures (Next(a, s).caches[i].pa == a.caches[i].pa && Next(a, s).caches[i].state != FREE)
            || (s.Timer? && Micros(s.now) - Micros(a.caches[i].timestamp) >= (CACHE_TIMEOUT + 1) * 1_000_000)
            || ((s.ResolveMiss? || s.Insert?) && s.at == i && Full(a.caches)
                && forall j :: 0 <= j < |a.caches| ==>
                     Micros(a.caches[i].timestamp) <= Micros(a.caches[j].timestamp))
  {
  }

  /** The timer drops exactly the entries that are 31 seconds old or older. */
  lemma ExpiredIff(c: Cache, now: Timeval)
    requires Normal(c.timestamp) && Normal(now) && c.state == RESOLVED
    ensures Expired(c, now) <==> Micros(now) - Micros(c.timestamp) >= (CACHE_TIMEOUT + 1) * 1_000_000
  {
  }

  /**
   * Every message can be taken when none is in progress, by one of the two forms of the first section; and after it, or
   * after the second section, the next one can.
   */
  lemma InputEnds(a: ArpState, m: Message, i: nat, now: Timeval, s: Step)
    requires Inv(a) && a.pending.None? && Normal(now)
    ensures Selects(a.caches, m.spa, Some(i)) ==>
              Enabled(a, Update(m, i, now)) && !Enabled(a, NoUpdate(m)) && Next(a, Update(m, i, now)).pending.None?
    ensures Selects(a.caches, m.spa, None) ==>
              && Enabled(a, NoUpdate(m)) && !Enabled(a, Update(m, i, now))
              && var b := Next(a, NoUpdate(m));
                 ((s.Insert? || s.NoInsert?) && Enabled(b, s) ==> Next(b, s).pending.None?)
  {
    if Selects(a.caches, m.spa, Some(i)) { assert Holds(a.caches[i], m.spa); }
  }

  // ---- How long an address stays ----

  ghost predicate Held(a: ArpState, pa: u32) { exists i :: 0 <= i < |a.caches| && Holds(a.caches[i], pa) }

  /** The timer finds the address 31 seconds after it was last updated or inserted, or later. */
  predicate TooOld(a: ArpState, s: Step, pa: u32)
    requires pa in a.refreshed
  {
    s.Timer? && Micros(s.now) >= Micros(a.refreshed[pa]) + (CACHE_TIMEOUT + 1) * 1_000_000
  }

  /** A full cache gives up the address for another one. */
  ghost predicate Evicted(a: ArpState, s: Step, pa: u32) {
    (s.ResolveMiss? || s.Insert?) && s.at < |a.caches| && Full(a.caches) && Holds(a.caches[s.at], pa)
  }

  /** What an update or an insertion leaves: the sender's address, with its hardware address and the clock. */
  lemma RefreshHolds(a: ArpState, s: Step)
    requires Inv(a) && Enabled(a, s) && (s.Update? || s.Insert?)
    ensures var m := if s.Update? then s.msg else a.pending.value;
            var b := Next(a, s);
            && Held(b, m.spa) && m.spa in b.refreshed && b.refreshed[m.spa] == s.now
            && m.spa in b.heard && b.heard[m.spa] == m.sha
  {
    StepKeeps(a, s);
    var m := if s.Update? then s.msg else a.pending.value;
    assert Holds(Next(a, s).caches[s.at], m.spa);
  }

  /** An address that is held stays held unless it is evicted or too old at a timer step, and then it is gone. */
  lemma HeldUntil(a: ArpState, s: Step, pa: u32)
    requires Inv(a) && Enabled(a, s) && Held(a, pa)
    ensures pa in a.refreshed
    ensures Held(Next(a, s), pa) <==> !TooOld(a, s, pa) && !Evicted(a, s, pa)
  {
    var i :| 0 <= i < |a.caches| && Holds(a.caches[i], pa);
    StepKeeps(a, s);
    var b := Next(a, s);
    assert Stamped(a.caches[i], a.refreshed);
    assert forall j :: 0 <= j < |a.caches| && Holds(a.caches[j], pa) ==> j == i;
    match s
    case Timer(now) =>
      ExpiredIff(a.caches[i], now);
      if TooOld(a, s, pa) {
        assert forall j :: 0 <= j < |b.caches| ==> !Holds(b.caches[j], pa);
      } else {
        assert Holds(b.caches[i], pa);
      }
    case ResolveMiss(_, _, _) => ReplacedOrKept(a, s, pa, i);
    case Insert(_, _) => ReplacedOrKept(a, s, pa, i);
    case _ => assert Holds(b.caches[i], pa);
  }

  lemma ReplacedOrKept(a: ArpState, s: Step, pa: u32, i: nat)
    requires Inv(a) && Enabled(a, s) && (s.ResolveMiss? || s.Insert?)
    requires i < |a.caches| && Holds(a.caches[i], pa)
    ensures Held(Next(a, s), pa) <==> !Evicted(a, s, pa)
  {
    var b := Next(a, s);
    if s.at != i {
      assert Holds(b.caches[i], pa);
    } else {
      if s.Insert? { assert !Holds(a.caches[i], a.pending.value.spa); }
      forall j | 0 <= j < |b.caches| ensures !Holds(b.caches[j], pa) {
        if j != i { assert b.caches[j] == a.caches[j]; }
      }
    }
  }

  /** Eviction takes the address that was updated or inserted longest ago. */
  lemma EvictionTakesTheOldest(a: ArpState, s: Step, pa: u32, other: u32)
    requires Inv(a) && Enabled(a, s) && Evicted(a, s, pa) && Held(a, other)
    ensures pa in a.refreshed && other in a.refreshed
    ensures Micros(a.refreshed[pa]) <= Micros(a.refreshed[other])
  {
    var j :| 0 <= j < |a.caches| && Holds(a.caches[j], other);
    assert Stamped(a.caches[s.at], a.refreshed) && Stamped(a.caches[j], a.refreshed);
    LostOnlyWhen(a, s, s.at);
    AfterIsLater(a.caches[j].timestamp, a.caches[s.at].timestamp);
    AfterIsLater(a.caches[s.at].timestamp, a.caches[j].timestamp);
  }

  /**
   * No step of the run evicts the address, and no timer step comes 31 seconds after `since` or later; the clock of its
   * updates is not before `since`.
   */
  ghost predicate Undisturbed(a: ArpState, steps: seq<Step>, pa: u32, since: Timeval)
    requires IsRun(a, steps)
    decreases |steps|
  {
    steps != [] ==>
      && !Evicted(a, steps[0], pa)
      && (steps[0].Timer? ==> Micros(steps[0].now) < Micros(since) + (CACHE_TIMEOUT + 1) * 1_000_000)
      && (steps[0].Update? && steps[0].msg.spa == pa ==> Micros(steps[0].now) >= Micros(since))
      && Undisturbed(Next(a, steps[0]), steps[1..], pa, since)
  }

  /**
   * In every interleaving, an address updated or inserted at `since` is held through every run that neither evicts it
   * nor lets the timer run 31 seconds later.
   */
  lemma {:induction false} HeldThroughout(a: ArpState, steps: seq<Step>, pa: u32, since: Timeval)
    requires Inv(a) && IsRun(a, steps) && Held(a, pa) && Undisturbed(a, steps, pa, since)
    requires pa in a.refreshed && Micros(a.refreshed[pa]) >= Micros(since)
    ensures Held(Run(a, steps), pa)
    decreases |steps|
  {
    if steps == [] {
    } else {
      HeldUntil(a, steps[0], pa);
      StepKeeps(a, steps[0]);
      NotInserted(a, steps[0], pa);
      hide Enabled, Inv, Held, Evicted;
      HeldThroughout(Next(a, steps[0]), steps[1..], pa, since);
    }
  }

  /** A held address is not the one that is about to be inserted. */
  lemma NotInserted(a: ArpState, s: Step, pa: u32)
    requires Inv(a) && Enabled(a, s) && Held(a, pa)
    ensures s.Insert? ==> a.pending.value.spa != pa
  {
    if s.Insert? {
      var i :| 0 <= i < |a.caches| && Holds(a.caches[i], pa);
      assert !Holds(a.caches[i], a.pending.value.spa);
    }
  }

  /**
   * arp_resolve never leaves an entry for an address it misses: the stored state is FREE. In a full cache it only takes
   * an entry away.
   */
  lemma MissLeavesNothing(a: ArpState, s: Step)
    requires Inv(a) && s.ResolveMiss? && Enabled(a, s)
    ensures Selects(Next(a, s).caches, s.pa, None)
    ensures !Full(Next(a, s).caches)
    ensures var c := Next(a, s).caches[s.at];
            c.state == 0 && c.pa == s.pa && c.timestamp == s.now && (Full(a.caches) ==> c.ha == [0, 0, 0, 0, 0, 0])
  {
    var cs, cs' := a.caches, Next(a, s).caches;
    assert cs'[s.at].state == FREE;
    forall j | 0 <= j < |cs'| ensures !Holds(cs'[j], s.pa) {
      assert !Holds(cs[j], s.pa);
    }
  }

  // ---- The cache in place ----

  class Table {
    const caches: array<Cache>
    ghost var Heard: map<u32, HwAddr>
    ghost var Pending: Option<Message>
    ghost var Refreshed: map<u32, Timeval>

    ghost function View(): ArpState
      reads this, caches
    {
      ArpState(caches[..], Heard, Pending, Refreshed)
    }

    ghost predicate Valid()
      reads this, caches
    {
      caches.Length == CACHE_SIZE && Inv(View())
    }

    constructor ()
      ensures Valid() && fresh(caches) && View() == Empty()
    {
      caches := new Cache[32](_ => DELETED);
      Heard, Pending, Refreshed := map[], None, map[];
      new;
      assert caches[..] == Empty().caches;
    }

    /** arp_cache_delete. */
    method Delete(i: nat)
      requires i < caches.Length
      modifies caches
      ensures caches[..] == old(caches[..])[i := DELETED]
    {
      caches[i] := DELETED;
    }

    /** arp_cache_alloc. */
    method Alloc() returns (i: nat)
      requires caches.Length == CACHE_SIZE
      modifies caches
      ensures Allocates(old(caches[..]), i)
      ensures caches[..] == old(caches[..])[i := Cleared(old(caches[..])[i])]
    {
      var oldest: Option<nat> := None;
      i := 0;
      while i < caches.Length
        invariant 0 <= i <= caches.Length && caches[..] == old(caches[..])
        invariant forall j :: 0 <= j < i ==> caches[j].state != FREE
        invariant oldest.None? <==> i == 0
        invariant oldest.Some? ==>
                    && oldest.value < i
                    && (forall j :: 0 <= j < oldest.value ==>
                          After(caches[j].timestamp, caches[oldest.value].timestamp))
                    && (forall j :: oldest.value < j < i ==>
                          !After(caches[oldest.value].timestamp, caches[j].timestamp))
      {
        if caches[i].state == FREE {
          assert caches[..] == caches[..][i := caches[i]];
          return;
        }
        if oldest.None? || After(caches[oldest.value].timestamp, caches[i].timestamp) {
          oldest := Some(i);
        }
        i := i + 1;
      }
      Delete(oldest.value);
      return oldest.value;
    }

    /** arp_cache_select. */
    method Select(pa: u32) returns (r: Option<nat>)
      ensures Selects(caches[..], pa, r)
    {
      for i := 0 to caches.Length
        invariant forall j :: 0 <= j < i ==> !Holds(caches[j], pa)
      {
        if caches[i].state != FREE && caches[i].pa == pa {
          return Some(i);
        }
      }
      return None;
    }

    /** The critical section of arp_resolve. */
    method Resolve(pa: u32, now: Timeval) returns (r: int, ha: Option<HwAddr>, ghost step: Step)
      requires Valid() && Normal(now)
      modifies caches
      ensures Enabled(old(View()), step) && View() == Next(old(View()), step) && Valid()
      ensures (step.ResolveHit? || step.ResolveMiss?) && step.pa == pa
      ensures r == if step.ResolveHit? then RESOLVE_FOUND else RESOLVE_INCOMPLETE
      ensures r == RESOLVE_FOUND ==> pa in Heard && ha == Some(Heard[pa])
    {
      var found := Select(pa);
      if found.None? {
        var i := Alloc();
        caches[i] := caches[i].(state := FREE, pa := pa, timestamp := now);
        step := ResolveMiss(pa, i, now);
        StepKeeps(old(View()), step);
        return RESOLVE_INCOMPLETE, None, step;
      }
      var cache := caches[found.value];
      step := ResolveHit(pa, found.value);
      assert Agrees(View().caches[found.value], Heard);
      if cache.state == INCOMPLETE {
        return RESOLVE_INCOMPLETE, None, step;
      }
      return RESOLVE_FOUND, Some(cache.ha), step;
    }

    /** The first critical section of arp_input: arp_cache_update. */
    method InputUpdate(msg: Message, now: Timeval) returns (updated: bool, ghost step: Step)
      requires Valid() && Pending.None? && Normal(now)
      modifies this, caches
      ensures Enabled(old(View()), step) && View() == Next(old(View()), step) && Valid()
      ensures updated == step.Update? && (step.Update? || step.NoUpdate?) && step.msg == msg
    {
      var found := Select(msg.spa);
      Heard := Heard[msg.spa := msg.sha];
      if found.None? {
        Pending := Some(msg);
        step := NoUpdate(msg);
        StepKeeps(old(View()), step);
        return false, step;
      }
      caches[found.value] := caches[found.value].(state := RESOLVED, ha := msg.sha, timestamp := now);
      Refreshed := Refreshed[msg.spa := now];
      step := Update(msg, found.value, now);
      StepKeeps(old(View()), step);
      return true, step;
    }

    /**
     * The second critical section of arp_input, after a first one that updated nothing: arp_cache_insert if the message
     * is for this host.
     */
    method InputInsert(msg: Message, mine: bool, now: Timeval) returns (ghost step: Step)
      requires Valid() && Pending == Some(msg) && Normal(now)
      modifies this, caches
      ensures Enabled(old(View()), step) && View() == Next(old(View()), step) && Valid()
      ensures if mine then step.Insert? else step.NoInsert?
    {
      if mine {
        var i := Alloc();
        caches[i] := Cache(RESOLVED, msg.spa, msg.sha, now);
        Refreshed := Refreshed[msg.spa := now];
        step := Insert(i, now);
      } else {
        step := NoInsert;
      }
      Pending := None;
      StepKeeps(old(View()), step);
    }

    /** arp_timer_handler. */
    method TimerHandler(now: Timeval)
      requires Valid() && Pending.None? && Normal(now)
      modifies caches
      ensures View() == Next(old(View()), Timer(now)) && Valid()
    {
      for i := 0 to caches.Length
        invariant forall j :: 0 <= j < i ==> caches[j] == Swept(old(caches[..]), now)[j]
        invariant forall j :: i <= j < caches.Length ==> caches[j] == old(caches[j])
      {
        if caches[i].state != FREE && caches[i].state != STATIC {
          var diff := Sub(now, caches[i].timestamp);
          if diff.sec > CACHE_TIMEOUT {
            Delete(i);
          }
        }
      }
      StepKeeps(old(View()), Timer(now));
    }
  }
}
