/** The replicated work queue and its ready-set: how each messaging command changes the
    applied state, the claim plan, and the add-only rebuild of the ready markers. */
module ReadySet {
  import opened Text
  import opened OrderedKeys
  import opened Durable

  /** A message's index record (payload and signed context ride along unchanged and are not
      modelled). */
  datatype Record = Record(attempts: nat, leaseUntil: nat, expiresAt: nat, priority: nat, lastError: Option<string>)

  datatype Value = Rec(record: Record) | Marker | Name(text: string) | Opaque(n: int)

  type Data = map<string, Value>

  type Mutation = Write<Value>

  // ---- keys ----

  const MQ := "mq/"
  const READY := "mqready/"

  function MetaPrefix(topic: string): string { MQ + topic + "/" }
  function MetaKey(topic: string, id: string): string { MetaPrefix(topic) + id }
  function ReadyKey(topic: string): string { READY + topic }
  function DeadKey(topic: string, id: string): string { "mqdead/" + topic + "/" + id }
  function GroupLogKey(topic: string, id: string): string { "mqglog/" + topic + "/" + id }
  function LogMaxKey(topic: string): string { "mqlogmax/" + topic }
  function GroupPrefix(topic: string): string { "mqgstate/" + topic + "/" }

  predicate DirectChild(key: string, prefix: string) {
    prefix <= key && |key| > |prefix| && '/' !in key[|prefix|..]
  }

  /** Some work-queue record of the topic is live. */
  ghost predicate Live(d: Data, topic: string) {
    exists key :: key in d && DirectChild(key, MetaPrefix(topic))
  }

  ghost predicate HasGroups(d: Data, topic: string) {
    exists key :: key in d && DirectChild(key, GroupPrefix(topic))
  }

  /** A key has one parent: the topic of a direct child is what precedes its last slash. */
  lemma ParentIsUnique(key: string, s: string, t: string)
    requires DirectChild(key, MetaPrefix(s)) && DirectChild(key, MetaPrefix(t))
    ensures s == t
  {
    var a, b := MetaPrefix(s), MetaPrefix(t);
    assert key[|a| - 1] == '/' && key[|b| - 1] == '/';
    assert a == b;
    assert a[3..|a| - 1] == s && b[3..|b| - 1] == t;
  }

  lemma MetaKeyIsChild(topic: string, id: string)
    requires id != "" && '/' !in id
    ensures DirectChild(MetaKey(topic, id), MetaPrefix(topic)) && MQ <= MetaKey(topic, id)
  {
    assert MetaKey(topic, id)[|MetaPrefix(topic)|..] == id;
  }

  lemma KeySpacesApart(topic: string, id: string)
    ensures !(MQ <= ReadyKey(topic)) && !(MQ <= DeadKey(topic, id))
    ensures !(MQ <= GroupLogKey(topic, id)) && !(MQ <= LogMaxKey(topic))
    ensures !(READY <= MetaKey(topic, id))
  {
    assert ReadyKey(topic)[2] == 'r' && DeadKey(topic, id)[2] == 'd';
    assert GroupLogKey(topic, id)[2] == 'g' && LogMaxKey(topic)[2] == 'l';
    assert MetaKey(topic, id)[2] == '/';
  }

  /** The position of the last slash, or -1. */
  function LastSlash(s: string): (i: int)
    ensures -1 <= i < |s|
    ensures i >= 0 ==> s[i] == '/'
    ensures forall j :: i < j < |s| ==> s[j] != '/'
  {
    if s == "" then -1 else if s[|s| - 1] == '/' then |s| - 1 else LastSlash(s[..|s| - 1])
  }

  // ---- the claim plan ----

  datatype Action = Lease(id: string, record: Record) | DeadLetter(id: string, record: Record)

  type Numbered = (string, Record)

  /** The record handed to a claimer: one more attempt, and leased. */
  function Leased(r: Record, now: nat, lease: nat): Record { r.(attempts := r.attempts + 1, leaseUntil := now + lease) }

  /** Higher priority first, then id order. */
  predicate Before(a: Numbered, b: Numbered) {
    a.1.priority > b.1.priority || (a.1.priority == b.1.priority && Less(a.0, b.0))
  }

  function InsertByPriority(r: Numbered, rs: seq<Numbered>): seq<Numbered> {
    if rs == [] || Before(r, rs[0]) then [r] + rs else [rs[0]] + InsertByPriority(r, rs[1..])
  }

  function SortByPriority(rs: seq<Numbered>): seq<Numbered> {
    if rs == [] then [] else InsertByPriority(rs[0], SortByPriority(rs[1..]))
  }

  function Plan(rs: seq<Numbered>, now: nat, lease: nat, budget: nat, maxAttempts: nat): seq<Action> {
    if rs == [] || budget == 0 then []
    else
      var (id, r) := rs[0];
      if r.leaseUntil > now then Plan(rs[1..], now, lease, budget, maxAttempts)
      else if r.expiresAt != 0 && r.expiresAt <= now then
        [DeadLetter(id, r.(lastError := Some("ttl-expired")))] + Plan(rs[1..], now, lease, budget, maxAttempts)
      else if r.attempts >= maxAttempts then
        [DeadLetter(id, r)] + Plan(rs[1..], now, lease, budget, maxAttempts)
      else
        [Lease(id, Leased(r, now, lease))]
        + Plan(rs[1..], now, lease, budget - 1, maxAttempts)
  }

  /** The shared claim decision, one record at a time. */
  method PlanClaim(records: seq<Numbered>, now: nat, lease: nat, maxBatch: nat, maxAttempts: nat) returns (actions: seq<Action>)
    ensures actions == Plan(SortByPriority(records), now, lease, maxBatch, maxAttempts)
  {
    var rs := SortByPriority(records);
    actions := [];
    var leased := 0;
    for i := 0 to |rs|
      invariant leased <= maxBatch
      invariant Plan(rs, now, lease, maxBatch, maxAttempts) == actions + Plan(rs[i..], now, lease, maxBatch - leased, maxAttempts)
    {
      if leased >= maxBatch { break; }
      var (id, record) := rs[i];
      assert rs[i..][1..] == rs[i + 1..];
      if record.leaseUntil > now { continue; }
      if record.expiresAt != 0 && record.expiresAt <= now {
        actions := actions + [DeadLetter(id, record.(lastError := Some("ttl-expired")))];
        continue;
      }
      if record.attempts >= maxAttempts {
        actions := actions + [DeadLetter(id, record)];
        continue;
      }
      actions := actions + [Lease(id, record.(attempts := record.attempts + 1, leaseUntil := now + lease))];
      leased := leased + 1;
    }
  }

  // What a plan leases: the best `budget` of the records that may be leased.

  predicate Leasable(r: Record, now: nat, maxAttempts: nat) {
    r.leaseUntil <= now && (r.expiresAt == 0 || r.expiresAt > now) && r.attempts < maxAttempts
  }

  function OnlyLeasable(rs: seq<Numbered>, now: nat, maxAttempts: nat): seq<Numbered> {
    if rs == [] then []
    else (if Leasable(rs[0].1, now, maxAttempts) then [rs[0]] else []) + OnlyLeasable(rs[1..], now, maxAttempts)
  }

  function LeaseAll(rs: seq<Numbered>, now: nat, lease: nat): seq<Action> {
    seq(|rs|, i requires 0 <= i < |rs| => Lease(rs[i].0, Leased(rs[i].1, now, lease)))
  }

  function Leases(actions: seq<Action>): seq<Action> {
    if actions == [] then [] else (if actions[0].Lease? then [actions[0]] else []) + Leases(actions[1..])
  }

  function First<T>(s: seq<T>, n: nat): seq<T> { if n <= |s| then s[..n] else s }

  lemma {:induction false} PlanLeasesFirst(rs: seq<Numbered>, now: nat, lease: nat, budget: nat, maxAttempts: nat)
    ensures Leases(Plan(rs, now, lease, budget, maxAttempts)) ==
            LeaseAll(First(OnlyLeasable(rs, now, maxAttempts), budget), now, lease)
  {
    if rs != [] && budget > 0 {
      if Leasable(rs[0].1, now, maxAttempts) {
        PlanLeasesFirst(rs[1..], now, lease, budget - 1, maxAttempts);
        assert First(OnlyLeasable(rs, now, maxAttempts), budget) ==
               [rs[0]] + First(OnlyLeasable(rs[1..], now, maxAttempts), budget - 1);
      } else {
        PlanLeasesFirst(rs[1..], now, lease, budget, maxAttempts);
      }
    }
  }

  /** Spelled out, what a claim does with a record it comes to: nothing while the lease lasts;
      dead-letter it if it has expired, saying so, or if it has been delivered often enough; and
      otherwise lease it with one more attempt. */
  predicate CallsFor(r: Numbered, a: Action, now: nat, lease: nat, maxAttempts: nat) {
    var Record(attempts, leaseUntil, expiresAt, priority, lastError) := r.1;
    && leaseUntil <= now
    && a == (if expiresAt != 0 && expiresAt <= now
             then DeadLetter(r.0, Record(attempts, leaseUntil, expiresAt, priority, Some("ttl-expired")))
             else if attempts >= maxAttempts then DeadLetter(r.0, r.1)
             else Lease(r.0, Record(attempts + 1, now + lease, expiresAt, priority, lastError)))
  }

  /** The claim comes to record i, as the budget is not used up by those before it, and that
      calls for the action. */
  ghost predicate Called(rs: seq<Numbered>, i: nat, now: nat, lease: nat, budget: nat, maxAttempts: nat, a: Action) {
    i < |rs| && |OnlyLeasable(rs[..i], now, maxAttempts)| < budget && CallsFor(rs[i], a, now, lease, maxAttempts)
  }

  lemma CalledInTail(rs: seq<Numbered>, i: nat, now: nat, lease: nat, budget: nat, maxAttempts: nat, a: Action)
    requires rs != [] && budget > 0
    ensures var left := if Leasable(rs[0].1, now, maxAttempts) then budget - 1 else budget;
            Called(rs, i + 1, now, lease, budget, maxAttempts, a) <==> Called(rs[1..], i, now, lease, left, maxAttempts, a)
  {
    if i + 1 < |rs| { assert rs[..i + 1][0] == rs[0] && rs[..i + 1][1..] == rs[1..][..i]; }
  }

  lemma PlanHead(rs: seq<Numbered>, now: nat, lease: nat, budget: nat, maxAttempts: nat, a: Action)
    requires rs != [] && budget > 0
    ensures var left := if Leasable(rs[0].1, now, maxAttempts) then budget - 1 else budget;
            a in Plan(rs, now, lease, budget, maxAttempts) <==>
              CallsFor(rs[0], a, now, lease, maxAttempts) || a in Plan(rs[1..], now, lease, left, maxAttempts)
  {}

  /** The actions of a plan are exactly those its records call for, up to where the budget is
      used up. */
  lemma {:induction false} PlanIsExact(rs: seq<Numbered>, now: nat, lease: nat, budget: nat, maxAttempts: nat, a: Action)
    ensures a in Plan(rs, now, lease, budget, maxAttempts) <==> exists i :: Called(rs, i, now, lease, budget, maxAttempts, a)
  {
    if rs != [] && budget > 0 {
      var left := if Leasable(rs[0].1, now, maxAttempts) then budget - 1 else budget;
      PlanIsExact(rs[1..], now, lease, left, maxAttempts, a);
      PlanHead(rs, now, lease, budget, maxAttempts, a);
      assert rs[..0] == [];
      assert Called(rs, 0, now, lease, budget, maxAttempts, a) <==> CallsFor(rs[0], a, now, lease, maxAttempts);
      if i: nat :| Called(rs[1..], i, now, lease, left, maxAttempts, a) {
        CalledInTail(rs, i, now, lease, budget, maxAttempts, a);
      }
      if i: nat :| Called(rs, i, now, lease, budget, maxAttempts, a) && i > 0 {
        CalledInTail(rs, i - 1, now, lease, budget, maxAttempts, a);
      }
    }
  }

  ghost predicate DistinctIds(rs: seq<Numbered>) {
    forall i, j :: 0 <= i < j < |rs| ==> rs[i].0 != rs[j].0
  }

  ghost predicate BestFirst(rs: seq<Numbered>) { forall i, j :: 0 <= i < j < |rs| ==> Better(rs[i], rs[j]) }

  ghost predicate Better(a: Numbered, b: Numbered) {
    a.1.priority >= b.1.priority && (a.1.priority == b.1.priority ==> Less(a.0, b.0))
  }

  lemma BeforeTransitive(a: Numbered, b: Numbered, c: Numbered)
    requires Before(a, b) && Before(b, c)
    ensures Before(a, c)
  {
    if Less(a.0, b.0) && Less(b.0, c.0) { LessTransitive(a.0, b.0, c.0); }
  }

  lemma {:induction false} InsertSorts(r: Numbered, rs: seq<Numbered>)
    requires BestFirst(rs) && forall x :: x in rs ==> x.0 != r.0
    ensures BestFirst(InsertByPriority(r, rs))
  {
    if rs != [] {
      LessTotal(r.0, rs[0].0);
      if Before(r, rs[0]) {
        forall j | 0 < j < |rs| ensures Before(r, rs[j]) { BeforeTransitive(r, rs[0], rs[j]); }
      } else {
        InsertSorts(r, rs[1..]);
        InsertKeepsRecords(r, rs[1..]);
        assert forall x :: x in InsertByPriority(r, rs[1..]) ==> Better(rs[0], x);
      }
    }
  }

  lemma {:induction false} SortIsBestFirst(rs: seq<Numbered>)
    requires DistinctIds(rs)
    ensures BestFirst(SortByPriority(rs))
  {
    if rs != [] {
      SortIsBestFirst(rs[1..]);
      SortKeepsRecords(rs[1..]);
      InsertSorts(rs[0], SortByPriority(rs[1..]));
    }
  }

  lemma {:induction false} GatheredIdsDiffer(d: Data, keys: seq<string>, topic: string)
    requires Ascending(keys)
    ensures DistinctIds(Gather(d, keys, MetaPrefix(topic)))
  {
    if keys != [] {
      GatheredIdsDiffer(d, keys[1..], topic);
      GatherFinds(d, keys[1..], topic);
      var prefix := MetaPrefix(topic);
      if prefix <= keys[0] {
        assert keys[0] == MetaKey(topic, keys[0][|prefix|..]);
        AscendingHeadIsApart(keys);
      }
    }
  }

  lemma AscendingHeadIsApart(keys: seq<string>)
    requires keys != [] && Ascending(keys)
    ensures keys[0] !in keys[1..]
  {
    if keys[0] in keys[1..] { LessTotal(keys[0], keys[0]); }
  }

  /** A claim leases exactly the best `maxBatch` of the topic's records that are due, unexpired
      and not spent: by priority, then by id. */
  lemma ClaimLeasesTheBest(d: Data, c: Command) returns (order: seq<Numbered>)
    requires c.Claim?
    ensures BestFirst(order)
    ensures forall r: Numbered :: r in order <==>
              MetaKey(c.topic, r.0) in d && d[MetaKey(c.topic, r.0)] == Rec(r.1) && r.0 != "" && '/' !in r.0
    ensures Leases(ClaimActions(d, c)) == LeaseAll(First(OnlyLeasable(order, c.now, c.maxAttempts), c.maxBatch), c.now, c.lease)
    ensures ClaimActions(d, c) == Plan(order, c.now, c.lease, c.maxBatch, c.maxAttempts)
  {
    var gathered := Gather(d, InOrder(d.Keys), MetaPrefix(c.topic));
    order := SortByPriority(gathered);
    GatheredIdsDiffer(d, InOrder(d.Keys), c.topic);
    SortIsBestFirst(gathered);
    SortKeepsRecords(gathered);
    GatherFinds(d, InOrder(d.Keys), c.topic);
    PlanLeasesFirst(order, c.now, c.lease, c.maxBatch, c.maxAttempts);
  }

  /** The topic's records, in key order. */
  function Gather(d: Data, keys: seq<string>, prefix: string): seq<Numbered> {
    if keys == [] then []
    else
      var rest := Gather(d, keys[1..], prefix);
      if keys[0] in d && DirectChild(keys[0], prefix) && d[keys[0]].Rec?
      then [(keys[0][|prefix|..], d[keys[0]].record)] + rest else rest
  }

  function OneAction(topic: string, a: Action): seq<Mutation> {
    match a
    case Lease(id, r) => [Put(MetaKey(topic, id), Rec(r))]
    case DeadLetter(id, r) => [Put(DeadKey(topic, id), Rec(r)), Delete(MetaKey(topic, id))]
  }

  function ActionWrites(topic: string, actions: seq<Action>): seq<Mutation> {
    if actions == [] then [] else OneAction(topic, actions[0]) + ActionWrites(topic, actions[1..])
  }

  // ---- commands ----

  datatype Command =
    | Publish(topic: string, id: string, retain: bool, notBefore: nat, expiresAt: nat, priority: nat)
    | Claim(topic: string, now: nat, lease: nat, maxBatch: nat, maxAttempts: nat)
    | Ack(topic: string, id: string)
    | Nack(topic: string, id: string, until: nat)
    | SetLastError(topic: string, id: string, reason: string)
    | Raw(writes: seq<Mutation>)
    | Batch(commands: seq<Command>)

  function PublishWrites(d: Data, c: Command): seq<Mutation>
    requires c.Publish?
  {
    var key, glog := MetaKey(c.topic, c.id), GroupLogKey(c.topic, c.id);
    var first := Rec(Record(0, c.notBefore, c.expiresAt, c.priority, None));
    var top := if LogMaxKey(c.topic) in d && d[LogMaxKey(c.topic)].Name? then d[LogMaxKey(c.topic)].text else "";
    (if key !in d then [Put(key, first)] else [])
    + [Put(ReadyKey(c.topic), Marker)]
    + (if c.retain && glog !in d then [Put(glog, Marker)] else [])
    + (if c.retain && Less(top, c.id) then [Put(LogMaxKey(c.topic), Name(c.id))] else [])
  }

  ghost function ClaimActions(d: Data, c: Command): seq<Action>
    requires c.Claim?
  {
    Plan(SortByPriority(Gather(d, InOrder(d.Keys), MetaPrefix(c.topic))), c.now, c.lease, c.maxBatch, c.maxAttempts)
  }

  /** Leases and dead letters, then the marker is pruned if the queue is now empty and the
      topic has no consumer group. */
  ghost function ClaimWrites(d: Data, c: Command): seq<Mutation>
    requires c.Claim?
  {
    var ws := ActionWrites(c.topic, ClaimActions(d, c));
    var after := Replay(d, ws);
    if !Live(after, c.topic) && !HasGroups(after, c.topic) then ws + [Delete(ReadyKey(c.topic))] else ws
  }

  ghost function Effects(d: Data, c: Command): seq<Mutation>
    decreases c
  {
    match c
    case Publish(_, _, _, _, _, _) => PublishWrites(d, c)
    case Claim(_, _, _, _, _) => ClaimWrites(d, c)
    case Ack(topic, id) => [Delete(MetaKey(topic, id))]
    case Nack(topic, id, until) =>
      var key := MetaKey(topic, id);
      if key in d && d[key].Rec?
      then [Put(key, Rec(d[key].record.(leaseUntil := until))), Put(ReadyKey(topic), Marker)] else []
    case SetLastError(topic, id, reason) =>
      var key := MetaKey(topic, id);
      if key in d && d[key].Rec? then [Put(key, Rec(d[key].record.(lastError := Some(reason))))] else []
    case Raw(writes) => writes
    case Batch(commands) => BatchEffects(d, commands)
  }

  ghost function BatchEffects(d: Data, cs: seq<Command>): seq<Mutation>
    decreases cs
  {
    if cs == [] then []
    else
      var ws := Effects(d, cs[0]);
      ws + BatchEffects(Replay(d, ws), cs[1..])
  }

  ghost function Applied(d: Data, c: Command): Data { Replay(d, Effects(d, c)) }

  // ---- the ready-set invariant ----

  /** A topic with a live record has its ready marker, but for some stray topics. */
  ghost predicate ReadyBut(d: Data, strays: set<string>) {
    forall key, topic :: key in d && DirectChild(key, MetaPrefix(topic)) ==> ReadyKey(topic) in d || topic in strays
  }

  /** A topic with a live record has its ready marker. */
  ghost predicate Ready(d: Data) { ReadyBut(d, {}) }

  ghost predicate AddsOnly(ws: seq<Mutation>, allowed: set<string>) {
    forall i :: 0 <= i < |ws| && ws[i].Put? && MQ <= ws[i].key ==> ws[i].key in allowed
  }

  ghost predicate KeepsMarkers(ws: seq<Mutation>) {
    forall i :: 0 <= i < |ws| && ws[i].Delete? ==> !(READY <= ws[i].key)
  }

  lemma {:induction false} ReplayAdds(d: Data, ws: seq<Mutation>, allowed: set<string>)
    requires AddsOnly(ws, allowed) && KeepsMarkers(ws)
    ensures forall k :: k in Replay(d, ws) && MQ <= k ==> k in d || k in allowed
    ensures forall k :: k in d && READY <= k ==> k in Replay(d, ws)
  {
    if ws != [] { ReplayAdds(d, ws[..|ws| - 1], allowed); }
  }

  /** Adding no record but to topics whose marker ends up present keeps the invariant. */
  lemma ReadyKept(d: Data, ws: seq<Mutation>, allowed: set<string>, strays: set<string>)
    requires ReadyBut(d, strays) && AddsOnly(ws, allowed) && KeepsMarkers(ws)
    requires forall key, topic :: key in allowed && key !in d && DirectChild(key, MetaPrefix(topic)) ==>
               ReadyKey(topic) in Replay(d, ws) || topic in strays
    ensures ReadyBut(Replay(d, ws), strays)
  {
    ReplayAdds(d, ws, allowed);
    forall key, topic | key in Replay(d, ws) && DirectChild(key, MetaPrefix(topic))
      ensures ReadyKey(topic) in Replay(d, ws) || topic in strays
    {
      assert MQ <= key;
    }
  }

  // ---- what a claim does ----

  lemma {:induction false} SortKeepsRecords(rs: seq<Numbered>)
    ensures forall r :: r in SortByPriority(rs) <==> r in rs
  {
    if rs != [] {
      SortKeepsRecords(rs[1..]);
      InsertKeepsRecords(rs[0], SortByPriority(rs[1..]));
      assert rs == [rs[0]] + rs[1..];
    }
  }

  lemma {:induction false} InsertKeepsRecords(r: Numbered, rs: seq<Numbered>)
    ensures forall x :: x in InsertByPriority(r, rs) <==> x == r || x in rs
  {
    if rs != [] && !Before(r, rs[0]) {
      InsertKeepsRecords(r, rs[1..]);
      assert rs == [rs[0]] + rs[1..];
    }
  }

  /** Exactly the topic's records are gathered. */
  lemma {:induction false} GatherFinds(d: Data, keys: seq<string>, topic: string)
    ensures forall r: Numbered :: r in Gather(d, keys, MetaPrefix(topic)) <==>
              MetaKey(topic, r.0) in keys && MetaKey(topic, r.0) in d && d[MetaKey(topic, r.0)] == Rec(r.1)
              && r.0 != "" && '/' !in r.0
  {
    if keys != [] {
      GatherFinds(d, keys[1..], topic);
      var prefix := MetaPrefix(topic);
      assert keys == [keys[0]] + keys[1..];
      if prefix <= keys[0] { assert keys[0] == MetaKey(topic, keys[0][|prefix|..]); }
      forall id ensures MetaKey(topic, id)[|prefix|..] == id {}
    }
  }

  predicate SameButError(a: Record, b: Record) { a.(lastError := b.lastError) == b }

  /** An action is on a planned record whose lease has run out, and says what becomes of it. */
  ghost predicate Due(a: Action, r: Numbered, now: nat, lease: nat) {
    && a.id == r.0 && r.1.leaseUntil <= now
    && (a.Lease? ==> a.record == Leased(r.1, now, lease))
    && (a.DeadLetter? ==> SameButError(a.record, r.1))
  }

  lemma {:induction false} PlanTakesDueRecords(rs: seq<Numbered>, now: nat, lease: nat, budget: nat, maxAttempts: nat, i: nat)
    returns (r: Numbered)
    requires i < |Plan(rs, now, lease, budget, maxAttempts)|
    ensures r in rs && Due(Plan(rs, now, lease, budget, maxAttempts)[i], r, now, lease)
  {
    var r0 := rs[0].1;
    assert rs == [rs[0]] + rs[1..];
    if r0.leaseUntil > now {
      r := PlanTakesDueRecords(rs[1..], now, lease, budget, maxAttempts, i);
    } else if i == 0 {
      r := rs[0];
    } else {
      var dead := (r0.expiresAt != 0 && r0.expiresAt <= now) || r0.attempts >= maxAttempts;
      r := PlanTakesDueRecords(rs[1..], now, lease, if dead then budget else budget - 1, maxAttempts, i - 1);
    }
  }

  /** What a claim returns or dead-letters was live in the topic with its lease run out. */
  lemma ClaimTakesDueRecords(d: Data, c: Command, i: nat) returns (r: Record)
    requires c.Claim? && i < |ClaimActions(d, c)|
    ensures var a := ClaimActions(d, c)[i];
            && a.id != "" && '/' !in a.id
            && MetaKey(c.topic, a.id) in d && d[MetaKey(c.topic, a.id)] == Rec(r) && Due(a, (a.id, r), c.now, c.lease)
  {
    var gathered := Gather(d, InOrder(d.Keys), MetaPrefix(c.topic));
    var n := PlanTakesDueRecords(SortByPriority(gathered), c.now, c.lease, c.maxBatch, c.maxAttempts, i);
    SortKeepsRecords(gathered);
    GatherFinds(d, InOrder(d.Keys), c.topic);
    r := n.1;
  }

  ghost predicate OnLiveRecords(d: Data, topic: string, actions: seq<Action>) {
    forall i :: 0 <= i < |actions| ==> MetaKey(topic, actions[i].id) in d
  }

  lemma {:induction false} ActionWritesAreTame(d: Data, topic: string, actions: seq<Action>)
    requires OnLiveRecords(d, topic, actions)
    ensures AddsOnly(ActionWrites(topic, actions), d.Keys) && KeepsMarkers(ActionWrites(topic, actions))
  {
    if actions != [] {
      ActionWritesAreTame(d, topic, actions[1..]);
      KeySpacesApart(topic, actions[0].id);
    }
  }

  lemma ClaimKeepsReady(d: Data, c: Command, strays: set<string>)
    requires c.Claim? && ReadyBut(d, strays)
    ensures ReadyBut(Applied(d, c), strays)
  {
    var actions := ClaimActions(d, c);
    forall i | 0 <= i < |actions| ensures MetaKey(c.topic, actions[i].id) in d { var r := ClaimTakesDueRecords(d, c, i); }
    var ws := ActionWrites(c.topic, actions);
    ActionWritesAreTame(d, c.topic, actions);
    ReadyKept(d, ws, d.Keys, strays);
    var after := Replay(d, ws);
    if !Live(after, c.topic) && !HasGroups(after, c.topic) {
      ReplaySnoc(d, ws, Delete(ReadyKey(c.topic)));
      PruneKeepsReady(after, c.topic, strays);
    }
  }

  /** Pruning the marker of an empty queue strands nothing. */
  lemma PruneKeepsReady(d: Data, topic: string, strays: set<string>)
    requires ReadyBut(d, strays) && !Live(d, topic)
    ensures ReadyBut(d - {ReadyKey(topic)}, strays)
  {
    forall t | ReadyKey(t) == ReadyKey(topic) ensures t == topic {
      assert ReadyKey(t)[|READY|..] == t && ReadyKey(topic)[|READY|..] == topic;
    }
  }

  // ---- what keeps the invariant ----

  /** A publish only puts: the record unless it is there, the marker, and what retention adds. */
  lemma PublishShape(d: Data, c: Command)
    requires c.Publish?
    ensures var ws, key := PublishWrites(d, c), MetaKey(c.topic, c.id);
            var marker := if key in d then 0 else 1;
            && marker < |ws| && ws[marker].key == ReadyKey(c.topic) && (key !in d ==> ws[0].key == key)
            && forall i :: 0 <= i < |ws| ==>
                 ws[i].Put? && ws[i].key in {key, ReadyKey(c.topic), GroupLogKey(c.topic, c.id), LogMaxKey(c.topic)}
  {}

  lemma PublishEffects(d: Data, c: Command)
    requires c.Publish?
    ensures AddsOnly(PublishWrites(d, c), {MetaKey(c.topic, c.id)}) && KeepsMarkers(PublishWrites(d, c))
    ensures ReadyKey(c.topic) in Applied(d, c)
    ensures MetaKey(c.topic, c.id) in Applied(d, c)
  {
    var ws, key := PublishWrites(d, c), MetaKey(c.topic, c.id);
    PublishShape(d, c);
    KeySpacesApart(c.topic, c.id);
    PublishPutsBoth(d, ws, key, ReadyKey(c.topic));
  }

  lemma PublishPutsBoth(d: Data, ws: seq<Mutation>, key: string, ready: string)
    requires forall i :: 0 <= i < |ws| ==> ws[i].Put?
    requires var marker := if key in d then 0 else 1; marker < |ws| && ws[marker].key == ready && (key !in d ==> ws[0].key == key)
    ensures ready in Replay(d, ws) && key in Replay(d, ws)
  {
    PutStays(d, ws, if key in d then 0 else 1);
    if key in d { OthersStay(d, ws, key); } else { PutStays(d, ws, 0); }
  }

  lemma {:induction false} OthersStay(d: Data, ws: seq<Mutation>, key: string)
    requires key in d && forall i :: 0 <= i < |ws| ==> ws[i].Put?
    ensures key in Replay(d, ws)
  {
    if ws != [] { OthersStay(d, ws[..|ws| - 1], key); }
  }

  lemma {:induction false} PutStays(d: Data, ws: seq<Mutation>, i: nat)
    requires (forall j :: 0 <= j < |ws| ==> ws[j].Put?) && i < |ws|
    ensures ws[i].key in Replay(d, ws)
  {
    if i < |ws| - 1 { PutStays(d, ws[..|ws| - 1], i); }
  }

  /** Publishing keeps the invariant exactly when the record lands in a topic that has its
      marker: the published topic itself, for every id without a slash. */
  lemma PublishKeepsReadyIff(d: Data, c: Command)
    requires c.Publish? && Ready(d)
    ensures Ready(Applied(d, c)) <==>
              forall t :: DirectChild(MetaKey(c.topic, c.id), MetaPrefix(t)) ==> t == c.topic || ReadyKey(t) in d
    ensures '/' !in c.id ==> Ready(Applied(d, c))
  {
    PublishEffects(d, c);
    var ws, key := PublishWrites(d, c), MetaKey(c.topic, c.id);
    ReplayAdds(d, ws, {key});
    MarkersOfPublish(d, c);
    if forall t :: DirectChild(key, MetaPrefix(t)) ==> t == c.topic || ReadyKey(t) in d {
      ReadyKept(d, ws, {key}, {});
    }
    if '/' !in c.id && c.id != "" {
      MetaKeyIsChild(c.topic, c.id);
      forall t | DirectChild(key, MetaPrefix(t)) ensures t == c.topic { ParentIsUnique(key, t, c.topic); }
    } else if c.id == "" {
      forall t ensures !DirectChild(key, MetaPrefix(t)) { EmptyIdIsNoChild(c.topic, t); }
    }
  }

  lemma EmptyIdIsNoChild(topic: string, t: string)
    ensures !DirectChild(MetaKey(topic, ""), MetaPrefix(t))
  {
    var key := MetaKey(topic, "");
    assert key[|key| - 1] == '/';
  }

  lemma MarkersOfPublish(d: Data, c: Command)
    requires c.Publish?
    ensures forall t :: ReadyKey(t) in Applied(d, c) ==> t == c.topic || ReadyKey(t) in d
  {
    forall t | t != c.topic ensures ReadyKey(t) in Applied(d, c) ==> ReadyKey(t) in d {
      assert ReadyKey(t)[|READY|..] == t && ReadyKey(c.topic)[|READY|..] == c.topic;
      KeySpacesApart(t, "");
      assert ReadyKey(t)[2] == 'r' && MetaKey(c.topic, c.id)[2] == '/';
      assert GroupLogKey(c.topic, c.id)[2] == 'g' && LogMaxKey(c.topic)[2] == 'l';
      Untouched(d, PublishWrites(d, c), ReadyKey(t));
    }
  }

  lemma {:induction false} Untouched(d: Data, ws: seq<Mutation>, key: string)
    requires forall i :: 0 <= i < |ws| ==> ws[i].key != key
    ensures key in Replay(d, ws) <==> key in d
    ensures key in d ==> Replay(d, ws)[key] == d[key]
  {
    if ws != [] { Untouched(d, ws[..|ws| - 1], key); }
  }

  /** A slash in the id: the record lands in a sub-topic nobody marked. */
  lemma SlashInIdBreaksReady()
    ensures var c := Publish("a", "b/c", false, 0, 0, 0);
            Ready(map[]) && !Ready(Applied(map[], c))
  {
    var c := Publish("a", "b/c", false, 0, 0, 0);
    PublishEffects(map[], c);
    MarkersOfPublish(map[], c);
    assert MetaKey("a", "b/c") == MetaKey("a/b", "c");
    MetaKeyIsChild("a/b", "c");
  }

  /** The topic that a publish puts its record into without marking it: what precedes the
      last slash of the id, if it has one, belongs to the record's topic. */
  ghost function Strays(c: Command): set<string>
    decreases c
  {
    match c
    case Publish(topic, id, _, _, _, _) =>
      if '/' in id then {topic + "/" + id[..LastSlash(id)]} else {}
    case Batch(cs) => StraysIn(cs)
    case _ => {}
  }

  ghost function StraysIn(cs: seq<Command>): set<string>
    decreases cs
  {
    if cs == [] then {} else Strays(cs[0]) + StraysIn(cs[1..])
  }

  /** Other subsystems' writes (and the rebuild's markers) add no record and delete no
      marker. Nothing is asked of the queue's own commands. */
  ghost predicate Tame(c: Command)
    decreases c
  {
    match c
    case Raw(writes) => AddsOnly(writes, {}) && KeepsMarkers(writes)
    case Batch(cs) => forall x :: x in cs ==> Tame(x)
    case _ => true
  }

  lemma StrayParent(topic: string, id: string, t: string)
    requires DirectChild(MetaKey(topic, id), MetaPrefix(t))
    ensures if '/' in id then t == topic + "/" + id[..LastSlash(id)] else t == topic
  {
    if '/' in id {
      var n := LastSlash(id);
      SlashSplitsId(topic, id);
      PlainParent(topic + "/" + id[..n], id[n + 1..], t);
    } else {
      PlainParent(topic, id, t);
    }
  }

  lemma SlashSplitsId(topic: string, id: string)
    requires '/' in id
    ensures var n := LastSlash(id);
            n >= 0 && '/' !in id[n + 1..] && MetaKey(topic, id) == MetaKey(topic + "/" + id[..n], id[n + 1..])
  {
    var n := LastSlash(id);
    assert n >= 0 && id == id[..n] + "/" + id[n + 1..];
  }

  lemma PlainParent(topic: string, id: string, t: string)
    requires '/' !in id && DirectChild(MetaKey(topic, id), MetaPrefix(t))
    ensures t == topic
  {
    if id == "" {
      EmptyIdIsNoChild(topic, t);
    } else {
      MetaKeyIsChild(topic, id);
      ParentIsUnique(MetaKey(topic, id), t, topic);
    }
  }

  /** A publish strands a record at most in the stray topic of its id. */
  lemma PublishKeepsReadyBut(d: Data, c: Command, strays: set<string>)
    requires c.Publish? && ReadyBut(d, strays)
    ensures ReadyBut(Applied(d, c), strays + Strays(c))
  {
    PublishEffects(d, c);
    var key := MetaKey(c.topic, c.id);
    forall t | DirectChild(key, MetaPrefix(t)) ensures t == c.topic || t in Strays(c) { StrayParent(c.topic, c.id, t); }
    ReadyKept(d, PublishWrites(d, c), {key}, strays + Strays(c));
  }

  lemma {:induction false} CommandKeepsReady(d: Data, c: Command, strays: set<string>)
    requires ReadyBut(d, strays) && Tame(c)
    ensures ReadyBut(Applied(d, c), strays + Strays(c))
    decreases c
  {
    match c
    case Publish(_, _, _, _, _, _) => PublishKeepsReadyBut(d, c, strays);
    case Claim(_, _, _, _, _) => ClaimKeepsReady(d, c, strays);
    case Ack(topic, id) =>
      KeySpacesApart(topic, id);
      ReadyKept(d, Effects(d, c), {}, strays);
    case Nack(topic, id, _) =>
      KeySpacesApart(topic, id);
      ReadyKept(d, Effects(d, c), d.Keys, strays);
    case SetLastError(topic, id, _) => ReadyKept(d, Effects(d, c), d.Keys, strays);
    case Raw(writes) => ReadyKept(d, writes, {}, strays);
    case Batch(cs) => BatchKeepsReady(d, cs, strays);
  }

  lemma {:induction false} BatchKeepsReady(d: Data, cs: seq<Command>, strays: set<string>)
    requires ReadyBut(d, strays) && forall c :: c in cs ==> Tame(c)
    ensures ReadyBut(Replay(d, BatchEffects(d, cs)), strays + StraysIn(cs))
    decreases cs
  {
    if cs != [] {
      var ws := Effects(d, cs[0]);
      assert Tame(cs[0]);
      CommandKeepsReady(d, cs[0], strays);
      BatchKeepsReady(Replay(d, ws), cs[1..], strays + Strays(cs[0]));
      ReplayConcat(d, ws, BatchEffects(Replay(d, ws), cs[1..]));
      assert strays + Strays(cs[0]) + StraysIn(cs[1..]) == strays + StraysIn(cs);
    }
  }

  ghost function AppliedAll(d: Data, cs: seq<Command>): Data {
    if cs == [] then d else Applied(AppliedAll(d, cs[..|cs| - 1]), cs[|cs| - 1])
  }

  ghost function StraysOfRun(cs: seq<Command>): set<string> {
    if cs == [] then {} else StraysOfRun(cs[..|cs| - 1]) + Strays(cs[|cs| - 1])
  }

  /** Ready-set safety: whatever publishes, claims, acks, nacks and rebuilds, read from
      whatever stale state, are applied in whatever order, no live record loses its topic's
      marker, except in topics that the run itself published into by an id with a slash. */
  lemma {:induction false} ReadyAlways(d: Data, cs: seq<Command>)
    requires Ready(d) && forall c :: c in cs ==> Tame(c)
    ensures ReadyBut(AppliedAll(d, cs), StraysOfRun(cs))
    ensures StraysOfRun(cs) == {} ==> Ready(AppliedAll(d, cs))
  {
    if cs != [] {
      ReadyAlways(d, cs[..|cs| - 1]);
      assert Tame(cs[|cs| - 1]);
      CommandKeepsReady(AppliedAll(d, cs[..|cs| - 1]), cs[|cs| - 1], StraysOfRun(cs[..|cs| - 1]));
    }
  }

  // ---- the rebuild ----

  lemma ChildTopic(key: string, topic: string)
    requires DirectChild(key, MetaPrefix(topic))
    ensures MQ <= key && LastSlash(key[3..]) >= 0 && key[3..][..LastSlash(key[3..])] == topic
  {
    var rest := key[3..];
    var n := |MetaPrefix(topic)|;
    assert rest[n - 4] == '/' && rest[..n - 4] == topic;
    forall j | n - 4 < j < |rest| ensures rest[j] != '/' { assert key[n..][j - n + 3] == rest[j]; }
  }

  lemma MarkersAreTame(ws: seq<Mutation>)
    requires forall i :: 0 <= i < |ws| ==> ws[i].Put? && READY <= ws[i].key
    ensures AddsOnly(ws, {}) && KeepsMarkers(ws)
  {
    forall i | 0 <= i < |ws| ensures !(MQ <= ws[i].key) { assert ws[i].key[2] == 'r'; }
  }

  /** The topic a work-queue key belongs to: what precedes its last slash. */
  function TopicOf(key: string): Option<string> {
    if MQ <= key && LastSlash(key[3..]) >= 0 then Some(key[3..][..LastSlash(key[3..])]) else None
  }

  ghost predicate Backlog(work: Data, topic: string) { exists key :: key in work && TopicOf(key) == Some(topic) }

  /** A marker of the empty topic is never taken for present. */
  predicate Unmarked(marks: Data, topic: string) { topic == "" || ReadyKey(topic) !in marks }

  /** The proposal is exactly the missing markers of the topics with work. */
  ghost predicate Remarks(work: Data, grouped: set<string>, marks: Data, proposal: Command) {
    && proposal.Raw?
    && (forall w :: w in proposal.writes <==> IsMissingMarker(work, grouped, marks, w))
  }

  ghost predicate IsMissingMarker(work: Data, grouped: set<string>, marks: Data, w: Mutation) {
    exists t :: Unmarked(marks, t) && (t in grouped || Backlog(work, t)) && w == Put(ReadyKey(t), Marker)
  }

  ghost predicate Queued(key: string, topic: string, name: string) { '/' !in name && key == "mq/" + topic + "/" + name }

  /** A key is work of a topic exactly if it is the topic and one more name. */
  lemma TopicOfIff(key: string, topic: string)
    ensures TopicOf(key) == Some(topic) <==> exists name :: Queued(key, topic, name)
  {
    if TopicOf(key) == Some(topic) {
      var rest := key[3..];
      var i := LastSlash(rest);
      assert key == MQ + rest && rest == rest[..i] + "/" + rest[i + 1..];
      assert Queued(key, topic, rest[i + 1..]);
    }
    if name :| Queued(key, topic, name) { QueuedTopic(key, topic, name); }
  }

  lemma QueuedTopic(key: string, topic: string, name: string)
    requires Queued(key, topic, name)
    ensures TopicOf(key) == Some(topic)
  {
    var rest := key[3..];
    assert rest == topic + "/" + name && rest[|topic|] == '/';
    forall j | |topic| < j < |rest| ensures rest[j] != '/' { assert rest[j] == name[j - |topic| - 1]; }
    assert LastSlash(rest) == |topic| && rest[..|topic|] == topic;
  }

  lemma LiveIsBacklog(work: Data, topic: string)
    requires Live(work, topic)
    ensures Backlog(work, topic)
  {
    var key :| key in work && DirectChild(key, MetaPrefix(topic));
    ChildTopic(key, topic);
  }

  lemma RemarksAreMarkers(work: Data, grouped: set<string>, marks: Data, proposal: Command)
    requires Remarks(work, grouped, marks, proposal)
    ensures forall i :: 0 <= i < |proposal.writes| ==> proposal.writes[i].Put? && READY <= proposal.writes[i].key
    ensures Tame(proposal)
  {
    forall i | 0 <= i < |proposal.writes| ensures proposal.writes[i].Put? && READY <= proposal.writes[i].key {
      assert proposal.writes[i] in proposal.writes;
    }
    MarkersAreTame(proposal.writes);
  }

  /** The topics of the queue's keys. */
  method TopicsWithWork(work: Data, grouped: set<string>) returns (withWork: set<string>)
    ensures forall t :: t in withWork <==> t in grouped || Backlog(work, t)
  {
    withWork := grouped;
    var left := work.Keys;
    while left != {}
      invariant left <= work.Keys
      invariant forall t :: t in withWork <==> t in grouped || Backlog(work - left, t)
      decreases left
    {
      var key :| key in left;
      BacklogOneMore(work, left, key);
      if TopicOf(key).Some? { withWork := withWork + {TopicOf(key).value}; }
      left := left - {key};
    }
    assert work - left == work;
  }

  lemma BacklogOneMore(work: Data, left: set<string>, key: string)
    requires left <= work.Keys && key in left
    ensures forall t :: Backlog(work - (left - {key}), t) <==> Backlog(work - left, t) || TopicOf(key) == Some(t)
  {
    var more, less := work - (left - {key}), work - left;
    forall t ensures Backlog(more, t) <==> Backlog(less, t) || TopicOf(key) == Some(t) {
      if Backlog(less, t) {
        var k :| k in less && TopicOf(k) == Some(t);
        assert k in more;
      }
      if TopicOf(key) == Some(t) { assert key in more; }
      if Backlog(more, t) {
        var k :| k in more && TopicOf(k) == Some(t);
        assert k == key || k in less;
      }
    }
  }

  /** Re-derive the topics with work from one (possibly stale) read of the applied state, then
      propose the markers that a later read lacks, adding only. `grouped` are the topics with
      consumer-group work, from a read in between. */
  method Rebuild(work: Data, grouped: set<string>, marks: Data) returns (proposal: Command)
    ensures Remarks(work, grouped, marks, proposal)
  {
    var withWork := TopicsWithWork(work, grouped);
    var left := set t | t in withWork && Unmarked(marks, t);
    var writes: seq<Mutation> := [];
    ghost var missing := left;
    while left != {}
      invariant left <= missing
      invariant forall w :: w in writes <==> exists t :: t in missing && t !in left && w == Put(ReadyKey(t), Marker)
      decreases left
    {
      var t :| t in left;
      writes, left := writes + [Put(ReadyKey(t), Marker)], left - {t};
    }
    proposal := Command.Raw(writes);
    forall w ensures w in writes <==> IsMissingMarker(work, grouped, marks, w) {
      if w in writes {
        var t :| t in missing && w == Put(ReadyKey(t), Marker);
      }
      if IsMissingMarker(work, grouped, marks, w) {
        var t :| Unmarked(marks, t) && (t in grouped || Backlog(work, t)) && w == Put(ReadyKey(t), Marker);
        assert t in missing;
      }
    }
  }

  /** A rebuild puts back every marker that was lost at its marker read and whose topic was
      live at its work read or had group work, whatever was applied in between, and takes none
      away; so it repairs any state whose unmarked live topics are all of that kind. */
  lemma RebuildRestores(work: Data, grouped: set<string>, marks: Data, proposal: Command, later: Data)
    requires Remarks(work, grouped, marks, proposal)
    ensures forall t :: (Live(work, t) || t in grouped) && ReadyKey(t) !in marks ==> ReadyKey(t) in Applied(later, proposal)
    ensures (forall t :: Live(later, t) && ReadyKey(t) !in later ==> Live(work, t) && ReadyKey(t) !in marks) ==>
              Ready(Applied(later, proposal))
    ensures forall t :: ReadyKey(t) in later ==> ReadyKey(t) in Applied(later, proposal)
  {
    var ws := proposal.writes;
    RemarksAreMarkers(work, grouped, marks, proposal);
    forall t | (Live(work, t) || t in grouped) && ReadyKey(t) !in marks ensures ReadyKey(t) in Replay(later, ws) {
      if Live(work, t) { LiveIsBacklog(work, t); }
      assert IsMissingMarker(work, grouped, marks, Put(ReadyKey(t), Marker));
      var i :| 0 <= i < |ws| && ws[i] == Put(ReadyKey(t), Marker);
      PutStays(later, ws, i);
    }
    ReplayAdds(later, ws, {});
    forall key, t | key in Replay(later, ws) && DirectChild(key, MetaPrefix(t)) ensures Live(later, t) {
      assert MQ <= key;
    }
  }

  // ---- the commands, spelled out ----

  lemma {:induction false} PutLands(d: Data, ws: seq<Mutation>, k: string, v: Value)
    requires Put(k, v) in ws && forall w :: w in ws && w.key == k ==> w == Put(k, v)
    ensures k in Replay(d, ws) && Replay(d, ws)[k] == v
  {
    var front, w := ws[..|ws| - 1], ws[|ws| - 1];
    assert ws == front + [w];
    if w.key != k { PutLands(d, front, k, v); }
  }

  lemma PublishKeysApart(topic: string, id: string)
    ensures var m, r, g, l := MetaKey(topic, id), ReadyKey(topic), GroupLogKey(topic, id), LogMaxKey(topic);
            m != r && m != g && m != l && r != g && r != l && g != l
  {
    assert MetaKey(topic, id)[2] == '/' && ReadyKey(topic)[2] == 'r';
    assert GroupLogKey(topic, id)[2] == 'g' && LogMaxKey(topic)[2] == 'l';
  }

  /** What a publish writes. */
  ghost predicate Published(d: Data, c: Command, w: Mutation)
    requires c.Publish?
  {
    var m, g, l := MetaKey(c.topic, c.id), GroupLogKey(c.topic, c.id), LogMaxKey(c.topic);
    || (m !in d && w == Put(m, Rec(Record(0, c.notBefore, c.expiresAt, c.priority, None))))
    || w == Put(ReadyKey(c.topic), Marker)
    || (c.retain && g !in d && w == Put(g, Marker))
    || (c.retain && LogEndBefore(d, l, c.id) && w == Put(l, Name(c.id)))
  }

  lemma PublishWritesExactly(d: Data, c: Command)
    requires c.Publish?
    ensures forall w :: w in PublishWrites(d, c) <==> Published(d, c, w)
  {}

  /** Publishing stores a record that is due, expires and ranks as asked, unless there is one
      already; sets the marker; for a retained message adds it to the group log and moves the
      log's end up to it; and touches nothing else. */
  lemma PublishStores(d: Data, c: Command)
    requires c.Publish?
    ensures forall w :: Published(d, c, w) ==> w.Put? && w.key in Applied(d, c) && Applied(d, c)[w.key] == w.value
    ensures forall k :: (forall w :: Published(d, c, w) ==> w.key != k) ==> SameAt(d, Applied(d, c), k)
  {
    var ws := PublishWrites(d, c);
    PublishWritesExactly(d, c);
    PublishKeysApart(c.topic, c.id);
    forall w | Published(d, c, w) ensures w.Put? && w.key in Applied(d, c) && Applied(d, c)[w.key] == w.value {
      PutLands(d, ws, w.key, w.value);
    }
    forall k | forall w :: Published(d, c, w) ==> w.key != k ensures SameAt(d, Applied(d, c), k) {
      forall i | 0 <= i < |ws| ensures ws[i].key != k { assert ws[i] in ws; }
      Untouched(d, ws, k);
    }
  }

  /** The retained log does not reach `id` yet. */
  predicate LogEndBefore(d: Data, l: string, id: string) { Less(if l in d && d[l].Name? then d[l].text else "", id) }

  /** Acking removes that record and nothing else. */
  lemma AckRemoves(d: Data, topic: string, id: string)
    ensures Applied(d, Ack(topic, id)) == d - {MetaKey(topic, id)}
  {
    ReplaySnoc(d, [], Delete(MetaKey(topic, id)));
    assert [] + [Delete(MetaKey(topic, id))] == Effects(d, Ack(topic, id));
  }

  /** Nacking moves that record's lease and sets the marker; there is nothing to nack without a
      record. */
  lemma NackReleases(d: Data, topic: string, id: string, until: nat)
    ensures var key, after := MetaKey(topic, id), Applied(d, Nack(topic, id, until));
            if key in d && d[key].Rec?
            then after == d[key := Rec(Record(d[key].record.attempts, until, d[key].record.expiresAt, d[key].record.priority,
                                              d[key].record.lastError))][ReadyKey(topic) := Marker]
            else after == d
  {
    var key := MetaKey(topic, id);
    if key in d && d[key].Rec? {
      var put: Mutation := Put(key, Rec(d[key].record.(leaseUntil := until)));
      ReplaySnoc(d, [], put);
      ReplaySnoc(d, [put], Put(ReadyKey(topic), Marker));
      assert [] + [put] == [put];
      assert Effects(d, Nack(topic, id, until)) == [put] + [Put(ReadyKey(topic), Marker)];
    }
  }

  /** Recording an error changes that record's error only. */
  lemma SetLastErrorRecords(d: Data, topic: string, id: string, reason: string)
    ensures var key, after := MetaKey(topic, id), Applied(d, SetLastError(topic, id, reason));
            if key in d && d[key].Rec?
            then after == d[key := Rec(Record(d[key].record.attempts, d[key].record.leaseUntil, d[key].record.expiresAt,
                                              d[key].record.priority, Some(reason)))]
            else after == d
  {
    var key := MetaKey(topic, id);
    if key in d && d[key].Rec? {
      var put: Mutation := Put(key, Rec(d[key].record.(lastError := Some(reason))));
      ReplaySnoc(d, [], put);
      assert [] + [put] == [put];
    }
  }

  /** A batch is its commands one after another. */
  lemma {:induction false} BatchIsSequence(d: Data, cs: seq<Command>)
    ensures Applied(d, Batch(cs)) == if cs == [] then d else Applied(Applied(d, cs[0]), Batch(cs[1..]))
  {
    assert Effects(d, Batch(cs)) == BatchEffects(d, cs);
    if cs == [] {
      assert BatchEffects(d, cs) == [];
    } else {
      var ws := Effects(d, cs[0]);
      assert Effects(Replay(d, ws), Batch(cs[1..])) == BatchEffects(Replay(d, ws), cs[1..]);
      ReplayConcat(d, ws, BatchEffects(Replay(d, ws), cs[1..]));
    }
  }

  /** Neither a record nor a dead letter of the topic. */
  ghost predicate Elsewhere(topic: string, k: string) { forall id :: k != MetaKey(topic, id) && k != DeadKey(topic, id) }

  /** A claim takes the marker away exactly if it leaves the topic without records and the topic
      has no group. */
  lemma ClaimPrunesIff(d: Data, c: Command)
    requires c.Claim?
    ensures var after := Applied(d, c);
            ReadyKey(c.topic) in after <==> ReadyKey(c.topic) in d && (Live(after, c.topic) || HasGroups(after, c.topic))
  {
    var mid := Replay(d, ActionWrites(c.topic, ClaimActions(d, c)));
    AfterClaim(d, c);
    forall id ensures ReadyKey(c.topic) != MetaKey(c.topic, id) && ReadyKey(c.topic) != DeadKey(c.topic, id) {
      MarkersApart(c.topic, id);
    }
    ActionsTouch(d, c.topic, ClaimActions(d, c), ReadyKey(c.topic));
    PruneChangesNoQueue(mid, c.topic);
  }

  /** It changes no key but the marker and its topic's records and dead letters. */
  lemma ClaimTouchesOnly(d: Data, c: Command, k: string)
    requires c.Claim? && k != ReadyKey(c.topic) && Elsewhere(c.topic, k)
    ensures SameAt(d, Applied(d, c), k)
  {
    AfterClaim(d, c);
    ActionsTouch(d, c.topic, ClaimActions(d, c), k);
  }

  /** Leases and dead letters, then perhaps the prune. */
  lemma AfterClaim(d: Data, c: Command)
    requires c.Claim?
    ensures var mid := Replay(d, ActionWrites(c.topic, ClaimActions(d, c)));
            Applied(d, c) == if !Live(mid, c.topic) && !HasGroups(mid, c.topic) then mid - {ReadyKey(c.topic)} else mid
  {
    ReplaySnoc(d, ActionWrites(c.topic, ClaimActions(d, c)), Delete(ReadyKey(c.topic)));
  }

  lemma PruneChangesNoQueue(d: Data, topic: string)
    ensures Live(d - {ReadyKey(topic)}, topic) <==> Live(d, topic)
    ensures HasGroups(d - {ReadyKey(topic)}, topic) <==> HasGroups(d, topic)
  {
    var less := d - {ReadyKey(topic)};
    assert ReadyKey(topic)[2] == 'r';
    if key :| key in d && DirectChild(key, MetaPrefix(topic)) {
      assert key[2] == MetaPrefix(topic)[2] == '/';
      assert key in less;
    }
    if key :| key in d && DirectChild(key, GroupPrefix(topic)) {
      assert key[2] == GroupPrefix(topic)[2] == 'g';
      assert key in less;
    }
  }

  lemma {:induction false} ActionsTouch(d: Data, topic: string, actions: seq<Action>, key: string)
    requires Elsewhere(topic, key)
    ensures SameAt(d, Replay(d, ActionWrites(topic, actions)), key)
    decreases |actions|
  {
    if actions != [] {
      var one := OneAction(topic, actions[0]);
      AfterOneAction(d, topic, actions[0]);
      assert key != MetaKey(topic, actions[0].id) && key != DeadKey(topic, actions[0].id);
      ActionsTouch(Replay(d, one), topic, actions[1..], key);
      ReplayConcat(d, one, ActionWrites(topic, actions[1..]));
    }
  }

  // ---- minted ids ----

  function MintedId(nowMs: nat, node: nat, sequence: nat): string {
    PaddedAtLeast(nowMs, 13) + "-" + PaddedHex(node, 16) + "-" + PaddedHex(sequence, 16)
  }

  /** The ids the coordinator mints meet the condition for publishing safely. */
  lemma MintedIdHasNoSlash(nowMs: nat, node: nat, sequence: nat)
    ensures '/' !in MintedId(nowMs, node, sequence) && MintedId(nowMs, node, sequence) != ""
  {
    DecimalHasNoSlash(nowMs);
    PaddedHasNoSlash(nowMs, 13);
    HexHasNoSlash(node, 16);
    HexHasNoSlash(sequence, 16);
  }

  lemma {:induction false} DecimalHasNoSlash(n: nat)
    ensures '/' !in Decimal(n)
  {
    if n >= 10 { DecimalHasNoSlash(n / 10); }
  }

  lemma {:induction false} PaddedHasNoSlash(n: nat, w: nat)
    ensures '/' !in Padded(n, w)
  {
    if w > 0 { PaddedHasNoSlash(n / 10, w - 1); }
  }

  lemma {:induction false} HexHasNoSlash(n: nat, w: nat)
    ensures '/' !in PaddedHex(n, w)
  {
    if w > 0 { HexHasNoSlash(n / 16, w - 1); }
  }

  lemma LastPartsAgree(x: string, p: string, q: string, x': string, p': string, q': string)
    requires |p| == |p'| && |q| == |q'| && x + "-" + p + "-" + q == x' + "-" + p' + "-" + q'
    ensures p == p' && q == q'
  {
    var s := x + "-" + p + "-" + q;
    var m, n := |s| - |q| - 1 - |p|, |s| - |q|;
    assert s[n..] == q && (x' + "-" + p' + "-" + q')[n..] == q';
    assert s[m..n - 1] == p && (x' + "-" + p' + "-" + q')[m..n - 1] == p';
  }

  /** No two messages share an id: node and sequence number can be read off it. */
  lemma MintedIdsDiffer(a: nat, node: nat, sequence: nat, b: nat, node': nat, sequence': nat)
    requires node <= U64_MAX && sequence <= U64_MAX && node' <= U64_MAX && sequence' <= U64_MAX
    requires MintedId(a, node, sequence) == MintedId(b, node', sequence')
    ensures node == node' && sequence == sequence'
  {
    PaddedHexLength(node, 16);
    PaddedHexLength(sequence, 16);
    PaddedHexLength(node', 16);
    PaddedHexLength(sequence', 16);
    LastPartsAgree(PaddedAtLeast(a, 13), PaddedHex(node, 16), PaddedHex(sequence, 16),
                   PaddedAtLeast(b, 13), PaddedHex(node', 16), PaddedHex(sequence', 16));
    U64FitsSixteenHexDigits();
    PaddedHexInjective(node, node', 16);
    PaddedHexInjective(sequence, sequence', 16);
  }

  lemma FirstPartDecides(a: string, p: string, q: string, b: string, p': string, q': string)
    requires |a| == |b| && Less(a, b)
    ensures Less(a + "-" + p + "-" + q, b + "-" + p' + "-" + q')
  {
    LessFrontDecides(a, b, "-" + p + "-" + q, "-" + p' + "-" + q');
    assert a + ("-" + p + "-" + q) == a + "-" + p + "-" + q;
    assert b + ("-" + p' + "-" + q') == b + "-" + p' + "-" + q';
  }

  /** Later messages have later ids, as long as the milliseconds have thirteen digits. */
  lemma MintedIdsAscend(a: nat, node: nat, sequence: nat, b: nat, node': nat, sequence': nat)
    requires a < b < Pow10(13)
    ensures Less(MintedId(a, node, sequence), MintedId(b, node', sequence'))
  {
    PaddedReadsBack(a, 13);
    PaddedReadsBack(b, 13);
    PaddedSorts(a, b, 13);
    FirstPartDecides(Padded(a, 13), PaddedHex(node, 16), PaddedHex(sequence, 16),
                     Padded(b, 13), PaddedHex(node', 16), PaddedHex(sequence', 16));
  }

  // ---- claims lose nothing and lease to one consumer at a time ----

  /** While a record is stored at `key` it is leased at least until `until`. */
  ghost predicate Held(d: Data, key: string, until: nat) {
    key in d ==> d[key].Rec? && d[key].record.leaseUntil >= until
  }

  lemma AfterOneAction(d: Data, topic: string, a: Action)
    ensures Replay(d, OneAction(topic, a)) ==
            match a
            case Lease(id, r) => d[MetaKey(topic, id) := Rec(r)]
            case DeadLetter(id, r) => d[DeadKey(topic, id) := Rec(r)] - {MetaKey(topic, id)}
  {
    match a
    case Lease(id, r) => ReplaySnoc(d, [], Put(MetaKey(topic, id), Rec(r)));
    case DeadLetter(id, r) =>
      ReplaySnoc(d, [], Put(DeadKey(topic, id), Rec(r)));
      ReplaySnoc(d, [Put(DeadKey(topic, id), Rec(r))], Delete(MetaKey(topic, id)));
      assert OneAction(topic, a) == [Put(DeadKey(topic, id), Rec(r))] + [Delete(MetaKey(topic, id))];
  }

  lemma {:induction false} ActionsHold(d: Data, topic: string, actions: seq<Action>, key: string, until: nat)
    requires MQ <= key
    requires forall i :: 0 <= i < |actions| && actions[i].Lease? && MetaKey(topic, actions[i].id) == key ==>
               actions[i].record.leaseUntil >= until
    requires Held(d, key, until) || exists i :: 0 <= i < |actions| && MetaKey(topic, actions[i].id) == key
    ensures Held(Replay(d, ActionWrites(topic, actions)), key, until)
    decreases |actions|
  {
    if actions != [] {
      var a, rest := actions[0], actions[1..];
      var mid := Replay(d, OneAction(topic, a));
      KeySpacesApart(topic, a.id);
      AfterOneAction(d, topic, a);
      ReplayConcat(d, OneAction(topic, a), ActionWrites(topic, rest));
      if !Held(mid, key, until) {
        var i :| 0 <= i < |actions| && MetaKey(topic, actions[i].id) == key;
        assert rest[i - 1] == actions[i];
      }
      ActionsHold(mid, topic, rest, key, until);
    }
  }

  lemma {:induction false} HeldThrough(d: Data, ws: seq<Mutation>, key: string, until: nat)
    requires Held(d, key, until)
    requires forall i :: 0 <= i < |ws| && ws[i].Put? && ws[i].key == key ==> Held(map[key := ws[i].value], key, until)
    ensures Held(Replay(d, ws), key, until)
  {
    if ws != [] { HeldThrough(d, ws[..|ws| - 1], key, until); }
  }

  /** A claim holds what it leases, and keeps held what was. */
  lemma ClaimHolds(d: Data, c: Command, key: string, until: nat)
    requires c.Claim? && MQ <= key && until <= c.now + c.lease
    requires Held(d, key, until) || exists i :: 0 <= i < |ClaimActions(d, c)| && MetaKey(c.topic, ClaimActions(d, c)[i].id) == key
    ensures Held(Applied(d, c), key, until)
  {
    var actions := ClaimActions(d, c);
    forall i | 0 <= i < |actions| && actions[i].Lease? ensures actions[i].record.leaseUntil >= until {
      var r := ClaimTakesDueRecords(d, c, i);
    }
    ActionsHold(d, c.topic, actions, key, until);
    var ws := ActionWrites(c.topic, actions);
    if !Live(Replay(d, ws), c.topic) && !HasGroups(Replay(d, ws), c.topic) {
      ReplaySnoc(d, ws, Delete(ReadyKey(c.topic)));
    }
  }

  /** A claim made before the lease runs out leaves the record alone. */
  lemma EarlyClaimPasses(d: Data, c: Command, key: string, until: nat)
    requires c.Claim? && Held(d, key, until) && c.now < until
    ensures forall i :: 0 <= i < |ClaimActions(d, c)| ==> MetaKey(c.topic, ClaimActions(d, c)[i].id) != key
  {
    var actions := ClaimActions(d, c);
    forall i | 0 <= i < |actions| ensures MetaKey(c.topic, actions[i].id) != key {
      var r := ClaimTakesDueRecords(d, c, i);
    }
  }

  /** The command does not itself hand the record at `key` back or put a new one there. */
  ghost predicate Spares(c: Command, key: string)
    decreases c
  {
    match c
    case Publish(topic, id, _, _, _, _) => MetaKey(topic, id) != key
    case Nack(topic, id, _) => MetaKey(topic, id) != key
    case Raw(writes) => forall i :: 0 <= i < |writes| && writes[i].Put? ==> writes[i].key != key
    case Batch(cs) => forall x :: x in cs ==> Spares(x, key)
    case _ => true
  }

  lemma {:induction false} CommandHolds(d: Data, c: Command, key: string, until: nat)
    requires Held(d, key, until) && Spares(c, key) && MQ <= key
    ensures Held(Applied(d, c), key, until)
    decreases c
  {
    match c
    case Claim(topic, now, _, _, _) =>
      if now < until {
        EarlyClaimHolds(d, c, key, until);
      } else {
        ClaimHolds(d, c, key, until);
      }
    case Batch(cs) => BatchHolds(d, cs, key, until);
    case Publish(topic, id, _, _, _, _) =>
      KeySpacesApart(topic, id);
      HeldThrough(d, Effects(d, c), key, until);
    case Nack(topic, id, _) =>
      KeySpacesApart(topic, id);
      HeldThrough(d, Effects(d, c), key, until);
    case _ => HeldThrough(d, Effects(d, c), key, until);
  }

  lemma EarlyClaimHolds(d: Data, c: Command, key: string, until: nat)
    requires c.Claim? && MQ <= key && Held(d, key, until) && c.now < until
    ensures Held(Applied(d, c), key, until)
  {
    EarlyClaimPasses(d, c, key, until);
    ActionsHold(d, c.topic, ClaimActions(d, c), key, until);
    var ws := ActionWrites(c.topic, ClaimActions(d, c));
    if !Live(Replay(d, ws), c.topic) && !HasGroups(Replay(d, ws), c.topic) {
      ReplaySnoc(d, ws, Delete(ReadyKey(c.topic)));
    }
  }

  lemma {:induction false} BatchHolds(d: Data, cs: seq<Command>, key: string, until: nat)
    requires Held(d, key, until) && MQ <= key && forall c :: c in cs ==> Spares(c, key)
    ensures Held(Replay(d, BatchEffects(d, cs)), key, until)
    decreases cs
  {
    if cs != [] {
      var ws := Effects(d, cs[0]);
      assert Spares(cs[0], key);
      CommandHolds(d, cs[0], key, until);
      BatchHolds(Replay(d, ws), cs[1..], key, until);
      ReplayConcat(d, ws, BatchEffects(Replay(d, ws), cs[1..]));
    }
  }

  lemma {:induction false} HeldAlways(d: Data, cs: seq<Command>, key: string, until: nat)
    requires Held(d, key, until) && MQ <= key && forall c :: c in cs ==> Spares(c, key)
    ensures Held(AppliedAll(d, cs), key, until)
  {
    if cs != [] {
      HeldAlways(d, cs[..|cs| - 1], key, until);
      assert Spares(cs[|cs| - 1], key);
      CommandHolds(AppliedAll(d, cs[..|cs| - 1]), cs[|cs| - 1], key, until);
    }
  }

  /** Exclusive leases: what one claim took is not given out again by any claim made before
      the lease runs out, whatever is applied in between, unless the record is nacked or
      its key written anew. */
  lemma LeaseIsExclusive(d: Data, first: Command, i: nat, between: seq<Command>, second: Command, j: nat)
    requires first.Claim? && i < |ClaimActions(d, first)|
    requires var key := MetaKey(first.topic, ClaimActions(d, first)[i].id); forall c :: c in between ==> Spares(c, key)
    requires second.Claim? && second.now < first.now + first.lease
    requires j < |ClaimActions(AppliedAll(Applied(d, first), between), second)|
    ensures MetaKey(second.topic, ClaimActions(AppliedAll(Applied(d, first), between), second)[j].id)
            != MetaKey(first.topic, ClaimActions(d, first)[i].id)
  {
    var key, until := MetaKey(first.topic, ClaimActions(d, first)[i].id), first.now + first.lease;
    ClaimHolds(d, first, key, until);
    HeldAlways(Applied(d, first), between, key, until);
    EarlyClaimPasses(AppliedAll(Applied(d, first), between), second, key, until);
  }

  /** What a claim makes of the record at `key`: left alone, leased, or kept as a dead letter
      with nothing but its error changed. */
  ghost predicate Kept(d: Data, after: Data, key: string, dead: string, now: nat, lease: nat)
    requires key in d
  {
    || (key in after && after[key] == d[key])
    || (key in after && d[key].Rec? && after[key] == Rec(Leased(d[key].record, now, lease)))
    || (key !in after && d[key].Rec? && dead in after && after[dead].Rec? && SameButError(after[dead].record, d[key].record))
  }

  /** The leases and dead letters of a claim, before any pruning. */
  lemma ActionsLoseNothing(d: Data, c: Command, id: string)
    requires c.Claim? && MetaKey(c.topic, id) in d
    ensures var after := Replay(d, ActionWrites(c.topic, ClaimActions(d, c)));
            Kept(d, after, MetaKey(c.topic, id), DeadKey(c.topic, id), c.now, c.lease)
  {
    var actions := ClaimActions(d, c);
    ClaimIdsDiffer(d, c);
    if i :| 0 <= i < |actions| && actions[i].id == id {
      var r := ClaimTakesDueRecords(d, c, i);
      ActedOnce(d, c.topic, actions, i);
    } else {
      NotActedOn(d, c.topic, actions, id);
    }
  }

  lemma MarkersApart(topic: string, id: string)
    ensures ReadyKey(topic) != MetaKey(topic, id) && ReadyKey(topic) != DeadKey(topic, id)
  {
    assert ReadyKey(topic)[2] == 'r' && MetaKey(topic, id)[2] == '/' && DeadKey(topic, id)[2] == 'd';
  }

  /** No claim loses or mixes up a record. */
  lemma ClaimLosesNothing(d: Data, c: Command, id: string)
    requires c.Claim? && MetaKey(c.topic, id) in d
    ensures Kept(d, Applied(d, c), MetaKey(c.topic, id), DeadKey(c.topic, id), c.now, c.lease)
  {
    var ws := ActionWrites(c.topic, ClaimActions(d, c));
    ActionsLoseNothing(d, c, id);
    ReplaySnoc(d, ws, Delete(ReadyKey(c.topic)));
    MarkersApart(c.topic, id);
  }

  /** A claim, record by record: with the topic's records in order, the one it comes to is leased,
      or leaves the queue for its dead-letter key, exactly as it calls for, and every other is
      as it was. */
  lemma ClaimIsExact(d: Data, c: Command) returns (order: seq<Numbered>)
    requires c.Claim?
    ensures BestFirst(order)
    ensures forall r: Numbered :: r in order <==>
              MetaKey(c.topic, r.0) in d && d[MetaKey(c.topic, r.0)] == Rec(r.1) && r.0 != "" && '/' !in r.0
    ensures forall i, a :: Called(order, i, c.now, c.lease, c.maxBatch, c.maxAttempts, a) ==>
              Done(Applied(d, c), c.topic, a)
    ensures forall id :: (forall i, a :: Called(order, i, c.now, c.lease, c.maxBatch, c.maxAttempts, a) ==> a.id != id) ==>
              SameAt(d, Applied(d, c), MetaKey(c.topic, id)) && SameAt(d, Applied(d, c), DeadKey(c.topic, id))
  {
    order := ClaimLeasesTheBest(d, c);
    var actions := ClaimActions(d, c);
    forall i, a | Called(order, i, c.now, c.lease, c.maxBatch, c.maxAttempts, a) ensures Done(Applied(d, c), c.topic, a) {
      PlanIsExact(order, c.now, c.lease, c.maxBatch, c.maxAttempts, a);
      ClaimDoes(d, c, a);
    }
    forall id | forall i, a :: Called(order, i, c.now, c.lease, c.maxBatch, c.maxAttempts, a) ==> a.id != id
      ensures SameAt(d, Applied(d, c), MetaKey(c.topic, id)) && SameAt(d, Applied(d, c), DeadKey(c.topic, id))
    {
      forall n | 0 <= n < |actions| ensures actions[n].id != id {
        PlanIsExact(order, c.now, c.lease, c.maxBatch, c.maxAttempts, actions[n]);
        assert actions[n] in actions;
      }
      ClaimSpares(d, c, id);
    }
  }

  /** The action is done: leased in place, or moved to the dead letters. */
  ghost predicate Done(after: Data, topic: string, a: Action) {
    if a.Lease? then MetaKey(topic, a.id) in after && after[MetaKey(topic, a.id)] == Rec(a.record)
    else MetaKey(topic, a.id) !in after && DeadKey(topic, a.id) in after && after[DeadKey(topic, a.id)] == Rec(a.record)
  }

  lemma ClaimDoes(d: Data, c: Command, a: Action)
    requires c.Claim? && a in ClaimActions(d, c)
    ensures Done(Applied(d, c), c.topic, a)
  {
    var actions := ClaimActions(d, c);
    var n :| 0 <= n < |actions| && actions[n] == a;
    ClaimIdsDiffer(d, c);
    ActedOnce(d, c.topic, actions, n);
    AfterClaim(d, c);
    MarkersApart(c.topic, a.id);
  }

  lemma ClaimSpares(d: Data, c: Command, id: string)
    requires c.Claim? && forall n :: 0 <= n < |ClaimActions(d, c)| ==> ClaimActions(d, c)[n].id != id
    ensures SameAt(d, Applied(d, c), MetaKey(c.topic, id)) && SameAt(d, Applied(d, c), DeadKey(c.topic, id))
  {
    NotActedOn(d, c.topic, ClaimActions(d, c), id);
    AfterClaim(d, c);
    MarkersApart(c.topic, id);
  }

  ghost predicate DistinctActions(actions: seq<Action>) {
    forall i, j :: 0 <= i < j < |actions| ==> actions[i].id != actions[j].id
  }

  lemma {:induction false} PlanIds(rs: seq<Numbered>, now: nat, lease: nat, budget: nat, maxAttempts: nat)
    requires DistinctIds(rs)
    ensures DistinctActions(Plan(rs, now, lease, budget, maxAttempts))
  {
    if rs != [] && budget > 0 {
      var spent := !Leasable(rs[0].1, now, maxAttempts);
      var budget' := if spent then budget else budget - 1;
      PlanIds(rs[1..], now, lease, budget', maxAttempts);
      var rest := Plan(rs[1..], now, lease, budget', maxAttempts);
      forall j | 0 <= j < |rest| ensures rest[j].id != rs[0].0 {
        var r := PlanTakesDueRecords(rs[1..], now, lease, budget', maxAttempts, j);
      }
    }
  }

  lemma ClaimIdsDiffer(d: Data, c: Command)
    requires c.Claim?
    ensures DistinctActions(ClaimActions(d, c))
  {
    var gathered := Gather(d, InOrder(d.Keys), MetaPrefix(c.topic));
    var order := SortByPriority(gathered);
    GatheredIdsDiffer(d, InOrder(d.Keys), c.topic);
    SortIsBestFirst(gathered);
    SortKeepsRecords(gathered);
    GatherFinds(d, InOrder(d.Keys), c.topic);
    forall i, j | 0 <= i < j < |order| ensures order[i].0 != order[j].0 {
      assert order[i] in order && order[j] in order;
      LessTotal(order[i].0, order[i].0);
    }
    PlanIds(order, c.now, c.lease, c.maxBatch, c.maxAttempts);
  }

  lemma DeadKeyInjective(topic: string, a: string, b: string)
    requires DeadKey(topic, a) == DeadKey(topic, b)
    ensures a == b
  {
    var n := |"mqdead/" + topic + "/"|;
    assert DeadKey(topic, a)[n..] == a && DeadKey(topic, b)[n..] == b;
  }

  lemma MetaKeyInjective(topic: string, a: string, b: string)
    requires MetaKey(topic, a) == MetaKey(topic, b)
    ensures a == b
  {
    var n := |MetaPrefix(topic)|;
    assert MetaKey(topic, a)[n..] == a && MetaKey(topic, b)[n..] == b;
  }

  ghost predicate SameAt(d: Data, after: Data, key: string) {
    (key in after <==> key in d) && (key in d ==> after[key] == d[key])
  }

  lemma OneActionElsewhere(d: Data, topic: string, a: Action, id: string)
    requires a.id != id
    ensures var after := Replay(d, OneAction(topic, a));
            SameAt(d, after, MetaKey(topic, id)) && SameAt(d, after, DeadKey(topic, id))
  {
    AfterOneAction(d, topic, a);
    KeySpacesApart(topic, id);
    KeySpacesApart(topic, a.id);
    assert MQ <= MetaKey(topic, id) && MQ <= MetaKey(topic, a.id);
    if MetaKey(topic, id) == MetaKey(topic, a.id) { MetaKeyInjective(topic, id, a.id); }
    if DeadKey(topic, id) == DeadKey(topic, a.id) { DeadKeyInjective(topic, id, a.id); }
  }

  /** Actions on other ids leave the record and its dead letter alone. */
  lemma {:induction false} NotActedOn(d: Data, topic: string, actions: seq<Action>, id: string)
    requires forall i :: 0 <= i < |actions| ==> actions[i].id != id
    ensures var after := Replay(d, ActionWrites(topic, actions));
            SameAt(d, after, MetaKey(topic, id)) && SameAt(d, after, DeadKey(topic, id))
    decreases |actions|
  {
    if actions != [] {
      var one := OneAction(topic, actions[0]);
      OneActionElsewhere(d, topic, actions[0], id);
      NotActedOn(Replay(d, one), topic, actions[1..], id);
      ReplayConcat(d, one, ActionWrites(topic, actions[1..]));
    }
  }

  /** What one action among distinct ones leaves behind. */
  lemma {:induction false} ActedOnce(d: Data, topic: string, actions: seq<Action>, i: nat)
    requires i < |actions| && DistinctActions(actions)
    ensures var a, after := actions[i], Replay(d, ActionWrites(topic, actions));
            if a.Lease? then MetaKey(topic, a.id) in after && after[MetaKey(topic, a.id)] == Rec(a.record)
            else MetaKey(topic, a.id) !in after && DeadKey(topic, a.id) in after && after[DeadKey(topic, a.id)] == Rec(a.record)
    decreases |actions|
  {
    var one, rest := OneAction(topic, actions[0]), actions[1..];
    ReplayConcat(d, one, ActionWrites(topic, rest));
    if i == 0 {
      AfterOneAction(d, topic, actions[0]);
      KeySpacesApart(topic, actions[0].id);
      assert MQ <= MetaKey(topic, actions[0].id);
      NotActedOn(Replay(d, one), topic, rest, actions[0].id);
    } else {
      ActedOnce(Replay(d, one), topic, rest, i - 1);
    }
  }
}
