/** Make-before-break rotation of a node's mesh key: any number of `rotate_key` calls on one
    node, interleaved step by step and stopped anywhere, with restarts, over the replicated
    trust log. */
module KeyRotation {
  type Key = nat

  /** Committed trust writes for this node; a replica has applied a prefix of them. */
  datatype Op = Trust(key: Key) | Retire(key: Key)

  /** How far a call has come. Persisting the new key (if a key file is configured), presenting
      it and swapping the identity (which yields the old one) are the three steps of
      `set_identity`. */
  datatype Phase = Generated | Announced | Persisted | Shown | Swapped(previous: Key) | Finished(previous: Key)

  /** `persists` says whether a rotated key is written to the file that a restart loads. The
      calls are known by the new key each has generated. `used`, `left` and `strays` are
      history: the keys generated so far; keys whose acceptance no call under way will end,
      left by a crash or revived by a late copy of their put; and writes that may have been
      in flight at a crash. */
  datatype State = State(
    first: Key,
    persists: bool,
    log: seq<Op>,
    presented: Key,
    identity: Key,
    file: Key,
    calls: map<Key, Phase>,
    used: set<Key>,
    left: set<Key>,
    strays: set<Op>)

  /** `Late` is a write landing outside its call's steps: one more copy of a write that has
      landed before, or one that was in flight at a crash. */
  datatype Event =
    | Start(key: Key)
    | Put(key: Key)
    | Persist(key: Key)
    | Show(key: Key)
    | Swap(key: Key)
    | Delete(key: Key)
    | Late(op: Op)
    | Restart

  function Initial(key: Key, persists: bool): State {
    State(key, persists, [Trust(key)], key, key, key, map[], {key}, {}, {})
  }

  predicate At(s: State, key: Key, phase: Phase) { key in s.calls && s.calls[key] == phase }

  /** A generated key is new; each call takes its steps in order. */
  predicate Enabled(s: State, e: Event) {
    match e
    case Start(k) => k !in s.used && k !in s.calls
    case Put(k) => At(s, k, Generated)
    case Persist(k) => At(s, k, Announced)
    case Show(k) => At(s, k, Persisted)
    case Swap(k) => At(s, k, Shown)
    case Delete(k) => k in s.calls && s.calls[k].Swapped?
    case Late(op) => op in s.log || op in s.strays
    case Restart => true
  }

  ghost function After(s: State, e: Event): State
    requires Enabled(s, e)
  {
    match e
    case Start(k) => s.(calls := s.calls[k := Generated], used := s.used + {k})
    case Put(k) => s.(log := s.log + [Trust(k)], calls := s.calls[k := Announced])
    case Persist(k) => s.(file := if s.persists then k else s.file, calls := s.calls[k := Persisted])
    case Show(k) => s.(presented := k, calls := s.calls[k := Shown])
    case Swap(k) => s.(identity := k, calls := s.calls[k := Swapped(s.identity)])
    case Delete(k) =>
      var previous := s.calls[k].previous;
      s.(log := s.log + [Retire(previous)], calls := s.calls[k := Finished(previous)])
    case Late(op) =>
      s.(log := s.log + [op], left := if op.Trust? && op.key !in Held(s) then s.left + {op.key} else s.left - {op.key})
    case Restart =>
      s.(presented := s.file, identity := s.file, calls := map[],
         left := s.left + Held(s) - {s.file}, strays := s.strays + InFlight(s))
  }

  ghost predicate Runs(s: State, es: seq<Event>, t: State)
    decreases |es|
  {
    if es == [] then s == t else Enabled(s, es[0]) && Runs(After(s, es[0]), es[1..], t)
  }

  /** The keys a replica accepts after applying these writes. */
  function Accepted(log: seq<Op>): set<Key> {
    if log == [] then {}
    else
      var front, op := Accepted(log[..|log| - 1]), log[|log| - 1];
      if op.Trust? then front + {op.key} else front - {op.key}
  }

  // ---- what the calls hold ----

  predicate Pending(p: Phase) { p == Announced || p == Persisted || p == Shown }

  predicate Inside(p: Phase) { p == Persisted || p == Shown }

  ghost function PendingKeys(s: State): set<Key> { set c | c in s.calls && Pending(s.calls[c]) }

  ghost function GeneratedKeys(s: State): set<Key> { set c | c in s.calls && s.calls[c] == Generated }

  ghost function LeavingKeys(s: State): set<Key> { set c | c in s.calls && s.calls[c].Swapped? :: s.calls[c].previous }

  /** The identity, the announced keys not yet swapped in, and the swapped-out keys not yet
      retired. */
  ghost function Held(s: State): set<Key> { {s.identity} + PendingKeys(s) + LeavingKeys(s) }

  /** The writes that the calls may have sent and not seen answered. */
  ghost function InFlight(s: State): set<Op> {
    (set k | k in GeneratedKeys(s) :: Trust(k)) + (set k | k in LeavingKeys(s) :: Retire(k))
  }

  lemma AcceptedSnoc(log: seq<Op>, op: Op)
    ensures Accepted(log + [op]) == if op.Trust? then Accepted(log) + {op.key} else Accepted(log) - {op.key}
  {
    assert (log + [op])[..|log|] == log;
  }

  /** A step of one call from phase to phase. */
  ghost predicate Moves(s: State, t: State, k: Key) { k in t.calls && t.calls == s.calls[k := t.calls[k]] }

  lemma SamePending(s: State, t: State, k: Key)
    requires Moves(s, t, k) && (Pending(t.calls[k]) <==> k in s.calls && Pending(s.calls[k]))
    ensures PendingKeys(t) == PendingKeys(s)
  {}

  lemma SameGenerated(s: State, t: State, k: Key)
    requires Moves(s, t, k) && t.calls[k] != Generated && !At(s, k, Generated)
    ensures GeneratedKeys(t) == GeneratedKeys(s)
  {}

  lemma SameLeaving(s: State, t: State, k: Key)
    requires Moves(s, t, k) && !t.calls[k].Swapped? && (k in s.calls ==> !s.calls[k].Swapped?)
    ensures LeavingKeys(t) == LeavingKeys(s)
  {
    forall c ensures c in s.calls && s.calls[c].Swapped? <==> c in t.calls && t.calls[c].Swapped? {}
  }

  lemma PendingAfter(s: State, e: Event)
    requires Enabled(s, e) && !e.Restart?
    ensures PendingKeys(After(s, e)) ==
            if e.Put? then PendingKeys(s) + {e.key} else if e.Swap? then PendingKeys(s) - {e.key} else PendingKeys(s)
  {
    var t := After(s, e);
    if e.Put? {
      forall x ensures x in PendingKeys(t) <==> x in PendingKeys(s) || x == e.key {}
    } else if e.Swap? {
      forall x ensures x in PendingKeys(t) <==> x in PendingKeys(s) && x != e.key {}
    } else if !e.Late? {
      SamePending(s, t, e.key);
    }
  }

  lemma GeneratedAfter(s: State, e: Event)
    requires Enabled(s, e) && !e.Restart?
    ensures GeneratedKeys(After(s, e)) ==
            if e.Start? then GeneratedKeys(s) + {e.key} else if e.Put? then GeneratedKeys(s) - {e.key} else GeneratedKeys(s)
  {
    var t := After(s, e);
    if e.Start? {
      forall x ensures x in GeneratedKeys(t) <==> x in GeneratedKeys(s) || x == e.key {}
    } else if e.Put? {
      forall x ensures x in GeneratedKeys(t) <==> x in GeneratedKeys(s) && x != e.key {}
    } else if !e.Late? {
      SameGenerated(s, t, e.key);
    }
  }

  lemma LeavingAfterSwap(s: State, k: Key)
    requires Enabled(s, Swap(k))
    ensures LeavingKeys(After(s, Swap(k))) == LeavingKeys(s) + {s.identity}
  {
    var t := After(s, Swap(k));
    assert t.calls[k] == Swapped(s.identity);
    forall x ensures x in LeavingKeys(t) <==> x in LeavingKeys(s) || x == s.identity {
      if x in LeavingKeys(s) {
        var c :| c in s.calls && s.calls[c] == Swapped(x);
        assert t.calls[c] == Swapped(x);
      }
    }
  }

  lemma LeavingAfterDelete(s: State, k: Key)
    requires Enabled(s, Delete(k))
    ensures LeavingKeys(s) - {s.calls[k].previous} <= LeavingKeys(After(s, Delete(k))) <= LeavingKeys(s)
    ensures (forall c :: c in s.calls && s.calls[c] == s.calls[k] ==> c == k) ==>
              s.calls[k].previous !in LeavingKeys(After(s, Delete(k)))
  {
    var t := After(s, Delete(k));
    forall x | x in LeavingKeys(s) && x != s.calls[k].previous ensures x in LeavingKeys(t) {
      var c :| c in s.calls && s.calls[c] == Swapped(x);
      assert t.calls[c] == Swapped(x);
    }
  }

  lemma LeavingAfter(s: State, e: Event)
    requires Enabled(s, e) && !e.Restart? && !e.Swap? && !e.Delete?
    ensures LeavingKeys(After(s, e)) == LeavingKeys(s)
  {
    if !e.Late? { SameLeaving(s, After(s, e), e.key); }
  }

  /** In every run whatever, accepted is at most what the calls hold and what was left over. */
  lemma {:induction false} AcceptedAtMostAlong(s: State, es: seq<Event>, t: State)
    requires Runs(s, es, t) && Accepted(s.log) <= Held(s) + s.left
    ensures Accepted(t.log) <= Held(t) + t.left
    decreases |es|
  {
    if es != [] {
      AcceptedAtMostStep(s, es[0]);
      AcceptedAtMostAlong(After(s, es[0]), es[1..], t);
    }
  }

  lemma AcceptedAtMostStep(s: State, e: Event)
    requires Enabled(s, e) && Accepted(s.log) <= Held(s) + s.left
    ensures Accepted(After(s, e).log) <= Held(After(s, e)) + After(s, e).left
  {
    if !e.Restart? { PendingAfter(s, e); }
    match e
    case Put(k) => AcceptedSnoc(s.log, Trust(k)); LeavingAfter(s, e);
    case Swap(k) => LeavingAfterSwap(s, k);
    case Delete(k) => AcceptedSnoc(s.log, Retire(s.calls[k].previous)); LeavingAfterDelete(s, k);
    case Late(op) => AcceptedSnoc(s.log, op); LeavingAfter(s, e);
    case Restart =>
    case _ => LeavingAfter(s, e);
  }

  lemma InitialAccepted(key: Key, persists: bool)
    ensures Accepted(Initial(key, persists).log) == {key} == Held(Initial(key, persists))
  {
    assert [Trust(key)] == [] + [Trust(key)];
    AcceptedSnoc([], Trust(key));
  }

  lemma AcceptedAtMost(key: Key, persists: bool, es: seq<Event>, s: State)
    requires Runs(Initial(key, persists), es, s)
    ensures Accepted(s.log) <= Held(s) + s.left
  {
    InitialAccepted(key, persists);
    AcceptedAtMostAlong(Initial(key, persists), es, s);
  }

  // ---- runs whose restarts load a key that is not on its way out ----

  /** The key a restart loads has not been retired, and no call or write in flight will. */
  ghost predicate Sound(s: State) {
    Retire(s.file) !in s.log && Retire(s.file) !in s.strays && s.file !in LeavingKeys(s)
  }

  ghost predicate SoundStep(s: State, e: Event) { e.Restart? ==> Sound(s) }

  ghost predicate RunsSoundly(s: State, es: seq<Event>, t: State)
    decreases |es|
  {
    if es == [] then s == t else Enabled(s, es[0]) && SoundStep(s, es[0]) && RunsSoundly(After(s, es[0]), es[1..], t)
  }

  /** The keys a call may still announce, present or retire. */
  ghost function Owned(s: State): set<Key> { Held(s) + GeneratedKeys(s) }

  /** Every key is known. */
  ghost predicate Known(s: State) {
    && s.calls.Keys <= s.used && Owned(s) <= s.used && s.file in s.used
    && (forall op :: op in s.log || op in s.strays ==> op.key in s.used)
  }

  /** No key is in two places: a call has not taken over twice, and nothing is being swapped
      out that is the identity or still to come. */
  ghost predicate Apart(s: State) {
    && s.identity !in PendingKeys(s) + GeneratedKeys(s) + LeavingKeys(s)
    && LeavingKeys(s) !! PendingKeys(s) + GeneratedKeys(s)
    && forall c, d :: c in s.calls && d in s.calls && s.calls[c].Swapped? && s.calls[c] == s.calls[d] ==> c == d
  }

  /** What is retired, or may be by a write in flight, is owned no more; what is generated has
      not been put; writes in flight at a crash belong to no call. */
  ghost predicate Parted(s: State) {
    && (forall k :: Retire(k) in s.log || Retire(k) in s.strays ==> k !in Owned(s))
    && (forall k :: k in GeneratedKeys(s) ==> Trust(k) !in s.log)
    && (forall op :: op in s.strays ==> op.key !in s.calls)
  }

  /** The key file holds the identity, or a key being swapped in or out, or a retired one. */
  ghost predicate FileKnown(s: State) {
    && Retire(s.file) !in s.strays
    && (|| s.file == s.identity || (s.file in s.calls && Inside(s.calls[s.file]))
        || s.file in LeavingKeys(s) || Retire(s.file) in s.log)
  }

  ghost predicate Accounted(s: State) { Accepted(s.log) == Held(s) + s.left && Held(s) !! s.left }

  /** A key's put comes before its retirement. */
  ghost predicate PutFirst(log: seq<Op>) {
    forall n :: 0 <= n < |log| && log[n].Retire? ==> Trust(log[n].key) in log[..n]
  }

  /** Every key that is in use, that a call has announced or swapped out, or that a write in
      flight may retire, has been put. */
  ghost predicate AllPut(s: State) {
    && PutFirst(s.log) && Trust(s.identity) in s.log && Trust(s.file) in s.log && Trust(s.presented) in s.log
    && (forall c :: c in s.calls && s.calls[c] != Generated ==> Trust(c) in s.log)
    && (forall c :: c in s.calls && s.calls[c].Swapped? ==> Trust(s.calls[c].previous) in s.log)
    && (forall op :: op in s.strays && op.Retire? ==> Trust(op.key) in s.log)
  }

  ghost predicate Inv(s: State) {
    Known(s) && Apart(s) && Parted(s) && FileKnown(s) && Accounted(s) && AllPut(s)
  }

  lemma OwnedAfterSwap(s: State, k: Key)
    requires Enabled(s, Swap(k))
    ensures Held(After(s, Swap(k))) == Held(s) && Owned(After(s, Swap(k))) == Owned(s)
  {
    PendingAfter(s, Swap(k));
    GeneratedAfter(s, Swap(k));
    LeavingAfterSwap(s, k);
    assert k in PendingKeys(s);
  }

  lemma OwnedAfterDelete(s: State, k: Key)
    requires Apart(s) && Enabled(s, Delete(k))
    ensures var previous := s.calls[k].previous;
            && previous in LeavingKeys(s)
            && Held(After(s, Delete(k))) == Held(s) - {previous} && Owned(After(s, Delete(k))) == Owned(s) - {previous}
  {
    PendingAfter(s, Delete(k));
    GeneratedAfter(s, Delete(k));
    LeavingAfterDelete(s, k);
    assert s.calls[k].previous in LeavingKeys(s);
  }

  /** How a step of the calls changes what they own. */
  lemma OwnedAfter(s: State, e: Event)
    requires Apart(s) && Enabled(s, e) && !e.Restart?
    ensures Held(After(s, e)) ==
            if e.Put? then Held(s) + {e.key} else if e.Delete? then Held(s) - {s.calls[e.key].previous} else Held(s)
    ensures Owned(After(s, e)) ==
            if e.Start? then Owned(s) + {e.key} else if e.Delete? then Owned(s) - {s.calls[e.key].previous} else Owned(s)
  {
    if e.Swap? {
      OwnedAfterSwap(s, e.key);
    } else if e.Delete? {
      OwnedAfterDelete(s, e.key);
    } else {
      PendingAfter(s, e);
      GeneratedAfter(s, e);
      LeavingAfter(s, e);
      assert e.Put? ==> e.key in GeneratedKeys(s);
    }
  }

  lemma ApartBySwap(s: State, k: Key)
    requires Apart(s) && Enabled(s, Swap(k))
    ensures Apart(After(s, Swap(k)))
  {
    PendingAfter(s, Swap(k));
    GeneratedAfter(s, Swap(k));
    LeavingAfterSwap(s, k);
    SwapsApart(s, k);
  }

  lemma ApartByDelete(s: State, k: Key)
    requires Apart(s) && Enabled(s, Delete(k))
    ensures Apart(After(s, Delete(k)))
  {
    PendingAfter(s, Delete(k));
    GeneratedAfter(s, Delete(k));
    LeavingAfterDelete(s, k);
  }

  lemma ApartKept(s: State, e: Event)
    requires Known(s) && Apart(s) && Enabled(s, e)
    ensures Apart(After(s, e))
  {
    if e.Swap? {
      ApartBySwap(s, e.key);
    } else if e.Delete? {
      ApartByDelete(s, e.key);
    } else if !e.Restart? {
      PendingAfter(s, e);
      GeneratedAfter(s, e);
      LeavingAfter(s, e);
    }
  }

  lemma SwapsApart(s: State, k: Key)
    requires Apart(s) && Enabled(s, Swap(k))
    ensures k in PendingKeys(s) && k !in LeavingKeys(s) && k != s.identity
    ensures forall c :: c in s.calls && s.calls[c].Swapped? ==> s.calls[c].previous != s.identity
  {
    forall c | c in s.calls && s.calls[c].Swapped? ensures s.calls[c].previous in LeavingKeys(s) {}
  }

  lemma KnownKept(s: State, e: Event)
    requires Known(s) && Apart(s) && Enabled(s, e)
    ensures Known(After(s, e))
  {
    if e.Restart? {
      forall op | op in InFlight(s) ensures op.key in Owned(s) {}
    } else {
      OwnedAfter(s, e);
      if e.Delete? { assert s.calls[e.key].previous in LeavingKeys(s); }
    }
  }

  lemma PartedKept(s: State, e: Event)
    requires Known(s) && Apart(s) && Parted(s) && FileKnown(s) && Enabled(s, e) && SoundStep(s, e)
    ensures Parted(After(s, e))
  {
    if e.Restart? {
      PartedByRestart(s);
    } else {
      OwnedAfter(s, e);
      GeneratedAfter(s, e);
      if e.Delete? { assert s.calls[e.key].previous in LeavingKeys(s); }
    }
  }

  lemma PartedByRestart(s: State)
    requires Parted(s) && Sound(s)
    ensures Parted(After(s, Restart))
  {
    assert Owned(After(s, Restart)) == {s.file};
    forall k | Retire(k) in InFlight(s) ensures k in LeavingKeys(s) {}
  }

  lemma FileKept(s: State, e: Event)
    requires Known(s) && Parted(s) && FileKnown(s) && Enabled(s, e) && SoundStep(s, e)
    ensures FileKnown(After(s, e))
  {
    match e
    case Swap(k) => LeavingAfterSwap(s, k);
    case Delete(k) => LeavingAfterDelete(s, k);
    case Restart => forall k | Retire(k) in InFlight(s) ensures k in LeavingKeys(s) {}
    case _ => LeavingAfter(s, e);
  }

  lemma AccountedByPut(s: State, k: Key)
    requires Apart(s) && Parted(s) && Accounted(s) && Enabled(s, Put(k))
    ensures Accounted(After(s, Put(k)))
  {
    OwnedAfter(s, Put(k));
    AcceptedSnoc(s.log, Trust(k));
    assert k in GeneratedKeys(s);
    if k in s.left { AcceptedWasTrusted(s.log, k); }
  }

  lemma AccountedByDelete(s: State, k: Key)
    requires Apart(s) && Accounted(s) && Enabled(s, Delete(k))
    ensures Accounted(After(s, Delete(k)))
  {
    OwnedAfter(s, Delete(k));
    AcceptedSnoc(s.log, Retire(s.calls[k].previous));
    assert s.calls[k].previous in LeavingKeys(s);
  }

  lemma AccountedByLate(s: State, op: Op)
    requires Apart(s) && Parted(s) && Accounted(s) && Enabled(s, Late(op))
    ensures Accounted(After(s, Late(op)))
  {
    OwnedAfter(s, Late(op));
    AcceptedSnoc(s.log, op);
  }

  lemma AccountedKept(s: State, e: Event)
    requires Apart(s) && Parted(s) && FileKnown(s) && Accounted(s) && Enabled(s, e) && SoundStep(s, e)
    ensures Accounted(After(s, e))
  {
    match e
    case Put(k) => AccountedByPut(s, k);
    case Delete(k) => AccountedByDelete(s, k);
    case Late(op) => AccountedByLate(s, op);
    case Restart =>
      assert Held(After(s, e)) == {s.file};
      SoundFileIsHeld(s);
    case _ => OwnedAfter(s, e);
  }

  lemma SoundFileIsHeld(s: State)
    requires FileKnown(s) && Sound(s)
    ensures s.file in Held(s)
  {}

  lemma PutFirstSnoc(log: seq<Op>, op: Op)
    requires PutFirst(log) && (op.Retire? ==> Trust(op.key) in log)
    ensures PutFirst(log + [op])
  {
    LogGrows(log, op);
  }

  lemma AllPutKept(s: State, e: Event)
    requires AllPut(s) && Enabled(s, e)
    ensures AllPut(After(s, e))
  {
    match e
    case Put(k) => PutFirstSnoc(s.log, Trust(k));
    case Delete(k) => PutFirstSnoc(s.log, Retire(s.calls[k].previous));
    case Late(op) =>
      if op.Retire? && op in s.log { var n :| 0 <= n < |s.log| && s.log[n] == op; }
      PutFirstSnoc(s.log, op);
    case _ =>
  }

  lemma {:induction false} AllPutAlong(s: State, es: seq<Event>, t: State)
    requires AllPut(s) && Runs(s, es, t)
    ensures AllPut(t)
    decreases |es|
  {
    if es != [] {
      AllPutKept(s, es[0]);
      AllPutAlong(After(s, es[0]), es[1..], t);
    }
  }

  lemma LogGrows(log: seq<Op>, op: Op)
    ensures forall n :: 0 <= n < |log| ==> (log + [op])[n] == log[n] && (log + [op])[..n] == log[..n]
    ensures (log + [op])[..|log|] == log
  {}

  lemma {:induction false} AcceptedWasTrusted(log: seq<Op>, k: Key)
    requires k in Accepted(log)
    ensures Trust(k) in log
  {
    var front, op := log[..|log| - 1], log[|log| - 1];
    assert log == front + [op];
    if op != Trust(k) { AcceptedWasTrusted(front, k); }
  }

  lemma InvKept(s: State, e: Event)
    requires Inv(s) && Enabled(s, e) && SoundStep(s, e)
    ensures Inv(After(s, e))
  {
    KnownKept(s, e);
    ApartKept(s, e);
    PartedKept(s, e);
    FileKept(s, e);
    AccountedKept(s, e);
    AllPutKept(s, e);
  }

  lemma InitialInv(key: Key, persists: bool)
    ensures Inv(Initial(key, persists))
  {
    InitialAccepted(key, persists);
    assert Owned(Initial(key, persists)) == {key};
  }

  lemma {:induction false} InvAlong(s: State, es: seq<Event>, t: State)
    requires Inv(s) && RunsSoundly(s, es, t)
    ensures Inv(t)
    decreases |es|
  {
    if es != [] {
      InvKept(s, es[0]);
      InvAlong(After(s, es[0]), es[1..], t);
    }
  }

  ghost predicate AllDone(s: State) { forall c :: c in s.calls ==> s.calls[c].Finished? || s.calls[c] == Generated }

  lemma AllDoneHoldsIdentity(s: State)
    requires AllDone(s)
    ensures Held(s) == {s.identity}
  {}

  /** In every run, overlapping or not, whose restarts load a key that is not on its way out,
      the accepted keys are exactly the identity, what is announced and not yet swapped in,
      what is swapped out and not yet retired, and what crashes and late copies left over.
      Once every call has finished (or announced nothing) only the identity is left, exactly
      if nothing was left over. */
  lemma AcceptedExactly(key: Key, persists: bool, es: seq<Event>, s: State)
    requires RunsSoundly(Initial(key, persists), es, s)
    ensures Accepted(s.log) == Held(s) + s.left && Held(s) !! s.left
    ensures AllDone(s) ==> (Accepted(s.log) == {s.identity} <==> s.left == {})
  {
    InitialInv(key, persists);
    InvAlong(Initial(key, persists), es, s);
    if AllDone(s) { AllDoneHoldsIdentity(s); }
  }

  // ---- the presented key, when no two calls are inside set_identity at once ----

  ghost predicate NobodyInside(s: State) { forall c :: c in s.calls ==> !Inside(s.calls[c]) }

  ghost predicate Alone(s: State, e: Event) { e.Persist? ==> NobodyInside(s) }

  /** Calls enter `set_identity` one at a time. */
  ghost predicate RunsSerially(s: State, es: seq<Event>, t: State)
    decreases |es|
  {
    if es == [] then s == t else Enabled(s, es[0]) && Alone(s, es[0]) && RunsSerially(After(s, es[0]), es[1..], t)
  }

  /** And restarts load a key that is not on its way out. */
  ghost predicate RunsCarefully(s: State, es: seq<Event>, t: State)
    decreases |es|
  {
    if es == [] then s == t
    else Enabled(s, es[0]) && Alone(s, es[0]) && SoundStep(s, es[0]) && RunsCarefully(After(s, es[0]), es[1..], t)
  }

  /** Whoever is inside is alone there, and which of the keys it has changed so far. */
  ghost predicate OneInside(s: State) {
    && (forall c, d :: c in s.calls && d in s.calls && Inside(s.calls[c]) && Inside(s.calls[d]) ==> c == d)
    && (NobodyInside(s) ==> s.presented == s.identity && (s.persists ==> s.file == s.identity))
    && (forall c :: c in s.calls && s.calls[c] == Persisted ==> s.presented == s.identity && (s.persists ==> s.file == c))
    && (forall c :: c in s.calls && s.calls[c] == Shown ==> s.presented == c && (s.persists ==> s.file == c))
    && (!s.persists ==> s.file == s.first)
  }

  ghost predicate SerialInv(s: State) { Inv(s) && OneInside(s) }

  lemma OneInsideKept(s: State, e: Event)
    requires OneInside(s) && Enabled(s, e) && Alone(s, e)
    ensures OneInside(After(s, e))
  {
    var t := After(s, e);
    if e.Late? || e.Restart? {
    } else if e.Swap? {
      forall c | c in t.calls ensures !Inside(t.calls[c]) {}
    } else if !Inside(t.calls[e.key]) {
      forall c | c in s.calls && Inside(s.calls[c]) ensures c in t.calls && Inside(t.calls[c]) {}
    }
  }

  lemma SerialInvKept(s: State, e: Event)
    requires SerialInv(s) && Enabled(s, e) && Alone(s, e) && SoundStep(s, e)
    ensures SerialInv(After(s, e))
  {
    InvKept(s, e);
    OneInsideKept(s, e);
  }

  lemma {:induction false} SerialInvAlong(s: State, es: seq<Event>, t: State)
    requires SerialInv(s) && RunsCarefully(s, es, t)
    ensures SerialInv(t)
    decreases |es|
  {
    if es != [] {
      SerialInvKept(s, es[0]);
      SerialInvAlong(After(s, es[0]), es[1..], t);
    }
  }

  lemma SerialReached(key: Key, persists: bool, es: seq<Event>, s: State)
    requires RunsCarefully(Initial(key, persists), es, s)
    ensures SerialInv(s) && s.persists == persists
  {
    InitialInv(key, persists);
    SerialInvAlong(Initial(key, persists), es, s);
    PersistsStays(Initial(key, persists), es, s);
  }

  lemma {:induction false} PersistsStays(s: State, es: seq<Event>, t: State)
    requires RunsCarefully(s, es, t)
    ensures t.persists == s.persists
    decreases |es|
  {
    if es != [] { PersistsStays(After(s, es[0]), es[1..], t); }
  }

  /** With a key file configured every restart loads a key that is not on its way out. */
  lemma PersistedIsSound(s: State)
    requires SerialInv(s) && s.persists
    ensures Sound(s)
  {
    if c :| c in s.calls && Inside(s.calls[c]) {
      assert s.file in PendingKeys(s);
    }
  }

  lemma {:induction false} PersistedRunsAreCareful(s: State, es: seq<Event>, t: State)
    requires SerialInv(s) && s.persists && RunsSerially(s, es, t)
    ensures RunsCarefully(s, es, t)
    decreases |es|
  {
    if es != [] {
      PersistedIsSound(s);
      SerialInvKept(s, es[0]);
      PersistedRunsAreCareful(After(s, es[0]), es[1..], t);
    }
  }

  /** A key that was never retired is accepted by every replica that has seen its put. */
  lemma {:induction false} NeverRetiredIsAccepted(log: seq<Op>, k: Key)
    requires Retire(k) !in log && Trust(k) in log
    ensures k in Accepted(log)
  {
    var front, op := log[..|log| - 1], log[|log| - 1];
    assert log == front + [op];
    if op != Trust(k) { NeverRetiredIsAccepted(front, k); }
  }

  /** A key is safe to present: its put is committed, and every replica whose applied prefix
      has that put accepts it. */
  ghost predicate SafeToPresent(log: seq<Op>, k: Key) {
    && Trust(k) in log
    && forall n :: 0 <= n <= |log| && Trust(k) in log[..n] ==> k in Accepted(log[..n])
  }

  lemma UnretiredIsSafe(log: seq<Op>, k: Key)
    requires k in Accepted(log) && Retire(k) !in log
    ensures SafeToPresent(log, k)
  {
    AcceptedWasTrusted(log, k);
    forall n | 0 <= n <= |log| && Trust(k) in log[..n] ensures k in Accepted(log[..n]) {
      NeverRetiredIsAccepted(log[..n], k);
    }
  }

  lemma UnacceptedPrefixIsUnsafe(log: seq<Op>, k: Key, n: nat)
    requires n <= |log| && Trust(k) in log[..n] && k !in Accepted(log[..n])
    ensures !SafeToPresent(log, k)
  {}

  lemma RetiredPrefix(log: seq<Op>, k: Key, n: nat)
    requires n < |log| && log[n] == Retire(k) && Trust(k) in log[..n]
    ensures Trust(k) in log[..n + 1] && k !in Accepted(log[..n + 1])
  {
    AcceptedSnoc(log[..n], Retire(k));
    assert log[..n + 1] == log[..n] + [Retire(k)];
  }

  lemma RetiredIsUnsafe(log: seq<Op>, k: Key)
    requires PutFirst(log) && Retire(k) in log
    ensures !SafeToPresent(log, k)
  {
    var n :| 0 <= n < |log| && log[n] == Retire(k);
    RetiredPrefix(log, k, n);
    UnacceptedPrefixIsUnsafe(log, k, n + 1);
  }

  lemma SafeIffUnretired(log: seq<Op>, k: Key)
    requires PutFirst(log) && Trust(k) in log
    ensures SafeToPresent(log, k) <==> Retire(k) !in log
  {
    if Retire(k) in log {
      RetiredIsUnsafe(log, k);
    } else {
      NeverRetiredIsAccepted(log, k);
      UnretiredIsSafe(log, k);
    }
  }

  /** In every run whatever, with any overlaps and any restarts, a key that has been put is safe
      to present exactly if it has never been retired; and the presented key and the one a
      restart would load have been put. */
  lemma SafeExactlyUnlessRetired(key: Key, persists: bool, es: seq<Event>, s: State, k: Key)
    requires Runs(Initial(key, persists), es, s) && Trust(k) in s.log
    ensures SafeToPresent(s.log, k) <==> Retire(k) !in s.log
    ensures Trust(s.presented) in s.log && Trust(s.file) in s.log
  {
    InitialInv(key, persists);
    AllPutAlong(Initial(key, persists), es, s);
    SafeIffUnretired(s.log, k);
  }

  lemma HeldIsSafe(s: State, k: Key)
    requires Inv(s) && k in Held(s)
    ensures SafeToPresent(s.log, k)
  {
    assert k in Owned(s);
    UnretiredIsSafe(s.log, k);
  }

  lemma SerialIsSafe(s: State)
    requires SerialInv(s)
    ensures SafeToPresent(s.log, s.presented)
  {
    if c :| c in s.calls && Inside(s.calls[c]) {
      assert c in PendingKeys(s);
      HeldIsSafe(s, c);
    }
    HeldIsSafe(s, s.identity);
  }

  /** Make before break: in every run in which no two calls are inside `set_identity` at once
      and restarts load a key that is not on its way out, whatever else overlaps and wherever
      calls stop, the presented key is accepted by every replica that has applied its put,
      writes that land late included; and when all calls have finished, exactly the presented
      key is left, with what crashes and late copies left over. */
  lemma PresentedIsAccepted(key: Key, persists: bool, es: seq<Event>, s: State)
    requires RunsCarefully(Initial(key, persists), es, s)
    ensures SafeToPresent(s.log, s.presented)
    ensures AllDone(s) ==> s.presented == s.identity && Accepted(s.log) == {s.presented} + s.left
  {
    SerialReached(key, persists, es, s);
    SerialIsSafe(s);
    if AllDone(s) { AllDoneHoldsIdentity(s); }
  }

  lemma {:induction false} SerialIsRun(s: State, es: seq<Event>, t: State)
    requires RunsSerially(s, es, t)
    ensures Runs(s, es, t) && t.persists == s.persists
    decreases |es|
  {
    if es != [] { SerialIsRun(After(s, es[0]), es[1..], t); }
  }

  lemma PersistedReached(key: Key, es: seq<Event>, s: State)
    requires RunsSerially(Initial(key, true), es, s)
    ensures RunsCarefully(Initial(key, true), es, s) && SerialInv(s) && s.persists && Sound(s)
  {
    InitialInv(key, true);
    PersistedRunsAreCareful(Initial(key, true), es, s);
    SerialReached(key, true, es, s);
    PersistedIsSound(s);
  }

  /** In every run in which no two calls are inside `set_identity` at once, whatever its restarts
      loaded, the key a restart would load is safe exactly if a key file is configured or no
      call has retired that key. */
  lemma FileIsSafeIff(key: Key, persists: bool, es: seq<Event>, s: State)
    requires RunsSerially(Initial(key, persists), es, s)
    ensures SafeToPresent(s.log, s.file) <==> persists || Retire(s.file) !in s.log
  {
    SerialIsRun(Initial(key, persists), es, s);
    InitialInv(key, persists);
    AllPutAlong(Initial(key, persists), es, s);
    SafeIffUnretired(s.log, s.file);
    if persists { PersistedReached(key, es, s); }
  }

  /** With a key file configured the presented key's safety needs nothing of the restarts, and
      the key a restart would load is as safe. */
  lemma PersistedIsAccepted(key: Key, es: seq<Event>, s: State)
    requires RunsSerially(Initial(key, true), es, s)
    ensures SafeToPresent(s.log, s.presented) && SafeToPresent(s.log, s.file)
    ensures AllDone(s) ==> s.file == s.presented && Accepted(s.log) == {s.presented} + s.left
  {
    PersistedReached(key, es, s);
    PresentedIsAccepted(key, true, es, s);
    FileIsSafeIff(key, true, es, s);
    assert AllDone(s) ==> NobodyInside(s);
  }

  // ---- and only then ----

  /** Nobody enters `set_identity` and the process stays up. */
  ghost predicate Undisturbed(es: seq<Event>) { forall i :: 0 <= i < |es| ==> !es[i].Persist? && !es[i].Restart? }

  /** However the calls now under way go on, undisturbed, the presented key stays accepted by
      every replica that has applied its put. */
  ghost predicate SafeOnward(s: State) {
    forall es, t :: Runs(s, es, t) && Undisturbed(es) ==> SafeToPresent(t.log, t.presented)
  }

  lemma {:induction false} UndisturbedIsCareful(s: State, es: seq<Event>, t: State)
    requires Runs(s, es, t) && Undisturbed(es)
    ensures RunsCarefully(s, es, t)
    decreases |es|
  {
    if es != [] { UndisturbedIsCareful(After(s, es[0]), es[1..], t); }
  }

  lemma SerialIsSafeOnward(s: State)
    requires SerialInv(s)
    ensures SafeOnward(s)
  {
    forall es, t | Runs(s, es, t) && Undisturbed(es) ensures SafeToPresent(t.log, t.presented) {
      UndisturbedIsCareful(s, es, t);
      SerialInvAlong(s, es, t);
      SerialIsSafe(t);
    }
  }

  lemma EarlierStep(s: State, e: Event, es: seq<Event>, t: State)
    requires Enabled(s, e) && !e.Persist? && !e.Restart? && Runs(After(s, e), es, t) && Undisturbed(es)
    ensures Runs(s, [e] + es, t) && Undisturbed([e] + es)
  {
    assert ([e] + es)[1..] == es;
  }

  /** The later one to present is the earlier one to swap. */
  lemma CrossedSwapsFail(s: State, i: Key, j: Key) returns (es: seq<Event>, t: State)
    requires i != j && At(s, i, Shown) && At(s, j, Persisted)
    ensures Runs(s, es, t) && Undisturbed(es) && t.presented == j && t.file == s.file && j !in Accepted(t.log)
  {
    var s1 := After(s, Show(j));
    var s2 := After(s1, Swap(j));
    var s3 := After(s2, Swap(i));
    t := After(s3, Delete(i));
    AcceptedSnoc(s3.log, Retire(j));
    EarlierStep(s3, Delete(i), [], t);
    EarlierStep(s2, Swap(i), [Delete(i)] + [], t);
    EarlierStep(s1, Swap(j), [Swap(i)] + ([Delete(i)] + []), t);
    es := [Show(j)] + ([Swap(j)] + ([Swap(i)] + ([Delete(i)] + [])));
    EarlierStep(s, Show(j), [Swap(j)] + ([Swap(i)] + ([Delete(i)] + [])), t);
  }

  /** As soon as a second call enters `set_identity` while one is inside, the run can go on so
      that the presented key is retired. */
  lemma OverlapCanFail(s: State, i: Key, j: Key) returns (es: seq<Event>, t: State)
    requires i != j && i in s.calls && Inside(s.calls[i]) && At(s, j, Persisted)
    ensures Runs(s, es, t) && Undisturbed(es) && t.presented == j && t.file == s.file && j !in Accepted(t.log)
  {
    if s.calls[i] == Shown {
      es, t := CrossedSwapsFail(s, i, j);
    } else {
      es, t := CrossedSwapsFail(After(s, Show(i)), i, j);
      EarlierStep(s, Show(i), es, t);
      es := [Show(i)] + es;
    }
  }

  lemma UnacceptedIsUnsafe(log: seq<Op>, k: Key)
    requires k !in Accepted(log)
    ensures !SafeToPresent(log, k)
  {
    assert log[..|log|] == log;
  }

  /** Entering `set_identity` is safe exactly if nobody is inside. */
  lemma EnteringIsSafeIff(key: Key, persists: bool, es: seq<Event>, s: State, j: Key)
    requires RunsCarefully(Initial(key, persists), es, s) && Enabled(s, Persist(j))
    ensures SafeOnward(After(s, Persist(j))) <==> NobodyInside(s)
  {
    if i :| i in s.calls && Inside(s.calls[i]) {
      var more, t := OverlapCanFail(After(s, Persist(j)), i, j);
      UnacceptedIsUnsafe(t.log, t.presented);
    } else {
      SerialReached(key, persists, es, s);
      SerialInvKept(s, Persist(j));
      SerialIsSafeOnward(After(s, Persist(j)));
    }
  }

  /** No call has come as far as `set_identity`, and nothing in flight retires the presented
      key. */
  ghost predicate Settled(s: State) {
    && (forall c :: c in s.calls ==> s.calls[c] == Generated || s.calls[c] == Announced)
    && Retire(s.presented) !in s.log && Retire(s.presented) !in s.strays
  }

  lemma {:induction false} SettledAlong(s: State, es: seq<Event>, t: State)
    requires Settled(s) && Runs(s, es, t) && Undisturbed(es)
    ensures Settled(t)
    decreases |es|
  {
    if es != [] {
      assert !es[0].Persist? && !es[0].Restart?;
      SettledAlong(After(s, es[0]), es[1..], t);
    }
  }

  lemma SoundRestartHolds(s: State)
    requires AllPut(s) && Sound(s)
    ensures SafeOnward(After(s, Restart))
  {
    var s' := After(s, Restart);
    AllPutKept(s, Restart);
    forall k | Retire(k) in InFlight(s) ensures k in LeavingKeys(s) {}
    forall es, t | Runs(s', es, t) && Undisturbed(es) ensures SafeToPresent(t.log, t.presented) {
      SettledAlong(s', es, t);
      AllPutAlong(s', es, t);
      SafeIffUnretired(t.log, t.presented);
    }
  }

  lemma UnsoundRestartFails(s: State)
    requires AllPut(s) && !Sound(s)
    ensures !SafeOnward(After(s, Restart))
  {
    var t := After(s, Restart);
    if Retire(s.file) in s.log {
      RetiredIsUnsafe(s.log, s.file);
      assert Runs(t, [], t) && Undisturbed([]);
    } else {
      assert Retire(s.file) in t.strays;
      var late := Late(Retire(s.file));
      EarlierStep(t, late, [], After(t, late));
      AcceptedSnoc(t.log, Retire(s.file));
      UnacceptedIsUnsafe(After(t, late).log, s.file);
    }
  }

  /** At any moment of any run, with any overlaps and earlier restarts, restarting is safe exactly
      if the key in the file has not been retired and no call or write in flight will retire
      it. */
  lemma RestartIsSafeIff(key: Key, persists: bool, es: seq<Event>, s: State)
    requires Runs(Initial(key, persists), es, s)
    ensures SafeOnward(After(s, Restart)) <==> Sound(s)
  {
    InitialInv(key, persists);
    AllPutAlong(Initial(key, persists), es, s);
    if Sound(s) { SoundRestartHolds(s); } else { UnsoundRestartFails(s); }
  }

  /** With a key file, and without overlap inside `set_identity`, it always is. */
  lemma PersistedRestartIsSafe(key: Key, es: seq<Event>, s: State)
    requires RunsSerially(Initial(key, true), es, s)
    ensures Sound(s) && SafeOnward(After(s, Restart))
  {
    PersistedReached(key, es, s);
    SoundRestartHolds(s);
  }

  // ---- concrete runs ----

  lemma {:induction false} RunsOneMore(s: State, es: seq<Event>, t: State, e: Event)
    requires Runs(s, es, t) && Enabled(t, e)
    ensures Runs(s, es + [e], After(t, e))
    decreases |es|
  {
    if es == [] {
      assert (es + [e])[1..] == [];
    } else {
      RunsOneMore(After(s, es[0]), es[1..], t, e);
      assert (es + [e])[1..] == es[1..] + [e];
    }
  }

  lemma {:induction false} RunsConcat(s: State, es: seq<Event>, t: State, fs: seq<Event>, u: State)
    requires Runs(s, es, t) && Runs(t, fs, u)
    ensures Runs(s, es + fs, u)
    decreases |es|
  {
    if es == [] {
      assert es + fs == fs;
    } else {
      RunsConcat(After(s, es[0]), es[1..], t, fs, u);
      assert (es + fs)[1..] == es[1..] + fs;
    }
  }

  /** Two overlapping calls after which the node presents a key nobody accepts, and a key file,
      if there is one, holds that key. */
  lemma OverlapFails(persists: bool) returns (es: seq<Event>, s: State)
    ensures Runs(Initial(0, persists), es, s) && s.presented !in Accepted(s.log)
    ensures persists ==> s.file == s.presented
  {
    var start := Initial(0, persists);
    es, s := [], start;
    RunsOneMore(start, es, s, Start(1));
    es, s := es + [Start(1)], After(s, Start(1));
    RunsOneMore(start, es, s, Start(2));
    es, s := es + [Start(2)], After(s, Start(2));
    RunsOneMore(start, es, s, Put(1));
    es, s := es + [Put(1)], After(s, Put(1));
    RunsOneMore(start, es, s, Put(2));
    es, s := es + [Put(2)], After(s, Put(2));
    RunsOneMore(start, es, s, Persist(1));
    es, s := es + [Persist(1)], After(s, Persist(1));
    RunsOneMore(start, es, s, Persist(2));
    es, s := es + [Persist(2)], After(s, Persist(2));
    var more, t := OverlapCanFail(s, 1, 2);
    RunsConcat(start, es, s, more, t);
    es, s := es + more, t;
  }

  /** The second half of a call: present, swap, retire. */
  lemma FinishCall(s: State, k: Key) returns (es: seq<Event>, t: State)
    requires At(s, k, Persisted)
    ensures Runs(s, es, t) && RunsCarefully(s, es, t)
    ensures t == s.(log := s.log + [Retire(s.identity)], presented := k, identity := k,
                    calls := s.calls[k := Shown][k := Swapped(s.identity)][k := Finished(s.identity)])
  {
    var s1 := After(s, Show(k));
    var s2 := After(s1, Swap(k));
    t := After(s2, Delete(k));
    es := [Show(k)] + ([Swap(k)] + ([Delete(k)] + []));
    FirstStep(s2, Delete(k), [], t);
    FirstStep(s1, Swap(k), [Delete(k)] + [], t);
    FirstStep(s, Show(k), [Swap(k)] + ([Delete(k)] + []), t);
  }

  /** One ordinary rotation from key 0 to key 1. */
  lemma OneRotation(persists: bool) returns (es: seq<Event>, s: State)
    ensures RunsCarefully(Initial(0, persists), es, s) && Runs(Initial(0, persists), es, s)
    ensures AllDone(s) && s.presented == s.identity == 1 && s.file == (if persists then 1 else 0)
    ensures s.log == [Trust(0), Trust(1), Retire(0)]
  {
    var s0 := Initial(0, persists);
    var s1 := After(s0, Start(1));
    var s2 := After(s1, Put(1));
    var s3 := After(s2, Persist(1));
    var rest;
    rest, s := FinishCall(s3, 1);
    es := [Start(1)] + ([Put(1)] + ([Persist(1)] + rest));
    FirstStep(s2, Persist(1), rest, s);
    FirstStep(s1, Put(1), [Persist(1)] + rest, s);
    FirstStep(s0, Start(1), [Put(1)] + ([Persist(1)] + rest), s);
  }

  lemma FirstStep(s: State, e: Event, es: seq<Event>, t: State)
    requires Enabled(s, e) && Alone(s, e) && SoundStep(s, e)
    requires Runs(After(s, e), es, t) && RunsCarefully(After(s, e), es, t)
    ensures Runs(s, [e] + es, t) && RunsCarefully(s, [e] + es, t)
  {
    assert ([e] + es)[1..] == es;
  }

  lemma AcceptedAfterRotation()
    ensures Accepted([Trust(0), Trust(1), Retire(0)]) == {1}
  {
    AcceptedSnoc([], Trust(0));
    AcceptedSnoc([Trust(0)], Trust(1));
    AcceptedSnoc([Trust(0), Trust(1)], Retire(0));
    assert [] + [Trust(0)] == [Trust(0)] && [Trust(0)] + [Trust(1)] == [Trust(0), Trust(1)];
    assert [Trust(0), Trust(1)] + [Retire(0)] == [Trust(0), Trust(1), Retire(0)];
  }

  /** Without a key file, one ordinary rotation and a restart leave the node presenting the
      key that the rotation retired. */
  lemma RotateThenRestartFails() returns (es: seq<Event>, s: State)
    ensures Runs(Initial(0, false), es, s) && es != [] && es[|es| - 1] == Restart
    ensures s.presented == 0 && 0 !in Accepted(s.log)
  {
    es, s := OneRotation(false);
    AcceptedAfterRotation();
    RunsOneMore(Initial(0, false), es, s, Restart);
    es, s := es + [Restart], After(s, Restart);
  }

  /** A late copy of a put that lands after the key's retirement makes it accepted again. */
  lemma LateCopyRevives(persists: bool) returns (es: seq<Event>, s: State)
    ensures Runs(Initial(0, persists), es, s) && AllDone(s)
    ensures s.presented == s.identity == 1 && Accepted(s.log) == {0, 1}
  {
    es, s := OneRotation(persists);
    AcceptedAfterRotation();
    AcceptedSnoc(s.log, Trust(0));
    RunsOneMore(Initial(0, persists), es, s, Late(Trust(0)));
    es, s := es + [Late(Trust(0))], After(s, Late(Trust(0)));
  }
}
