/**
 The event cache of CFdbBaseObject. A state machine over whole requests shows that
 suppressing unchanged broadcasts never leaves a subscriber with a stale value;
 class EventSource performs each step on the nested tables.
 */
module EventCache {
  import opened Common
  import opened EventCodes
  import opened Subscriptions
  import opened Publishing

  // ------------------------------------------------------------------ cached value

  /** CEventData: `buffer` is None for a null pointer. */
  datatype EventData = EventData(buffer: Option<Payload>, size: nat, alwaysUpdate: bool) {
    predicate Valid() {
      size == |Value()| && (buffer.Some? <==> size > 0)
    }

    function Value(): Payload {
      buffer.GetOr([])
    }
  }

  const EMPTY_DATA := EventData(None, 0, false)

  /** setEventCache: stores the payload; false only when nothing had to be stored. */
  function SetEventCache(e: EventData, payload: Payload): (EventData, bool) {
    if |payload| == e.size then
      if e.buffer.Some? then
        if e.buffer.value == payload then (e, false)
        else (e.(buffer := if |payload| > 0 then Some(payload) else e.buffer), true)
      else
        (e.(buffer := if |payload| > 0 then Some(payload) else None), true)
    else
      (e.(buffer := if |payload| > 0 then Some(payload) else None, size := |payload|), true)
  }

  lemma SetEventCacheMeaning(e: EventData, payload: Payload)
    requires e.Valid()
    ensures var (e', updated) := SetEventCache(e, payload);
            && e'.Valid() && e'.Value() == payload && e'.alwaysUpdate == e.alwaysUpdate
            && (!updated <==> payload == e.Value() && payload != [])
  {
  }

  type Cache = map<Code, map<string, EventData>>

  function CacheAt(cache: Cache, code: Code, topic: string): Option<EventData> {
    if code in cache && topic in cache[code] then Some(cache[code][topic]) else None
  }

  function CachePut(cache: Cache, code: Code, topic: string, e: EventData): Cache {
    cache[code := (if code in cache then cache[code] else map[])[topic := e]]
  }

  lemma CachePutAt(cache: Cache, code: Code, topic: string, e: EventData)
    ensures forall c, t :: CacheAt(CachePut(cache, code, topic, e), c, t) ==
                           if c == code && t == topic then Some(e) else CacheAt(cache, c, t)
  {
  }

  ghost predicate ValidCache(cache: Cache) {
    forall c, t :: CacheAt(cache, c, t).Some? ==> CacheAt(cache, c, t).value.Valid()
  }

  function CachedValue(cache: Cache, code: Code, topic: string): Option<Payload> {
    if CacheAt(cache, code, topic).Some? then Some(CacheAt(cache, code, topic).value.Value()) else None
  }

  /** updateEventCache with the cache enabled: the new cache, and whether to send. */
  function UpdateEventCache(cache: Cache, code: Code, topic: string, payload: Payload, force: bool): (Cache, bool) {
    var (e, updated) := SetEventCache(CacheAt(cache, code, topic).GetOr(EMPTY_DATA), payload);
    (CachePut(cache, code, topic, e), updated || e.alwaysUpdate || force)
  }

  lemma UpdateMeaning(cache: Cache, code: Code, topic: string, payload: Payload, force: bool)
    requires ValidCache(cache)
    ensures var (cache', send) := UpdateEventCache(cache, code, topic, payload, force);
            && ValidCache(cache')
            && (forall c, t :: CachedValue(cache', c, t) ==
                               if c == code && t == topic then Some(payload) else CachedValue(cache, c, t))
            && (!send <==> && CachedValue(cache, code, topic) == Some(payload) && payload != [] && !force
                           && !CacheAt(cache, code, topic).value.alwaysUpdate)
  {
    SetEventCacheMeaning(CacheAt(cache, code, topic).GetOr(EMPTY_DATA), payload);
    CachePutAt(cache, code, topic, SetEventCache(CacheAt(cache, code, topic).GetOr(EMPTY_DATA), payload).0);
  }

  /** Storing the cached value again changes nothing. */
  lemma UpdateIdempotent(cache: Cache, code: Code, topic: string)
    requires ValidCache(cache) && CachedValue(cache, code, topic).Some?
    ensures UpdateEventCache(cache, code, topic, CachedValue(cache, code, topic).value, true) == (cache, true)
  {
    var e := CacheAt(cache, code, topic).value;
    assert SetEventCache(e, e.Value()).0 == e;
    assert cache[code][topic := e] == cache[code];
    assert CachePut(cache, code, topic, e) == cache;
  }

  // ----------------------------------------------------------------- state machine

  /** One element of a subscribe list; a missing filter is the wildcard, a missing type is normal. */
  datatype Item = Item(code: Code, filter: Option<string>, subType: Option<SubscribeType>) {
    function Topic(): string { filter.GetOr("") }
    function Type(): SubscribeType { subType.GetOr(Normal) }
  }

  /** `log` is everything ever handed to a session, oldest first. */
  datatype State = State(flat: Flat, cache: Cache, log: seq<Delivery>)

  datatype Op =
    | SubscribeReq(session: Session, obj: ObjectId, items: seq<Item>, allowed: bool)
    | UpdateReq(session: Session, obj: ObjectId, items: seq<Item>)
    | UnsubscribeReq(session: Session, obj: ObjectId, items: seq<Item>)
    | SessionLost(session: Session)
    | Publish(code: Code, topic: string, payload: Payload, force: bool, manual: bool)
    | PublishTo(session: Session, obj: ObjectId, code: Code, topic: string, payload: Payload, force: bool, manual: bool)
    | InitCache(code: Code, topic: string, payload: Payload, always: bool)

  function SubscribeItems(m: Flat, session: Session, obj: ObjectId, items: seq<Item>): Flat {
    if items == [] then m
    else
      var it := items[|items| - 1];
      SubscribeItems(m, session, obj, items[..|items| - 1])[Key(it.code, session, obj, it.Topic()) := it.Type()]
  }

  ghost function UnsubscribeItems(m: Flat, session: Session, obj: ObjectId, items: seq<Item>): Flat {
    if items == [] then m
    else
      var it := items[|items| - 1];
      Without(UnsubscribeItems(m, session, obj, items[..|items| - 1]), Subscription(session, it.code, obj, it.filter))
  }

  /** What a targeted broadcast sends: the event entry decides, and only if there is none the group entry. */
  function TargetedSends(m: Flat, session: Session, obj: ObjectId, code: Code, topic: string, payload: Payload, manual: bool): seq<Delivery> {
    var inEvents := if IsGroup(code) then None else FlatMatch(m, code, session, obj, topic);
    var entry := if inEvents.Some? then inEvents else FlatMatch(m, MakeGroup(code), session, obj, topic);
    if Wants(entry, manual) then [Delivery(session, obj, code, topic, payload)] else []
  }

  /** broadcastCached: the cached value of every listed (code, topic) that has one. */
  function CachedSends(m: Flat, cache: Cache, session: Session, obj: ObjectId, items: seq<Item>, manual: bool): seq<Delivery> {
    if items == [] then []
    else
      var it := items[|items| - 1];
      var value := CachedValue(cache, it.code, it.Topic());
      CachedSends(m, cache, session, obj, items[..|items| - 1], manual) +
      (if value.Some? then TargetedSends(m, session, obj, it.code, it.Topic(), value.value, manual) else [])
  }

  predicate WantedByAny(m: Flat, session: Session, obj: ObjectId, code: Code, topic: string, manual: bool) {
    || (!IsGroup(code) && Wants(FlatMatch(m, code, session, obj, topic), manual))
    || Wants(FlatMatch(m, MakeGroup(code), session, obj, topic), manual)
  }

  /** The deliveries of a broadcast to all sessions: every wanting pair, carrying this payload, and no other. */
  ghost predicate SendsToAll(m: Flat, code: Code, topic: string, payload: Payload, manual: bool, sent: seq<Delivery>) {
    forall d :: d in sent <==>
      d.code == code && d.topic == topic && d.payload == payload && WantedByAny(m, d.session, d.obj, code, topic, manual)
  }

  ghost predicate Step(s: State, op: Op, s': State) {
    match op
    case SubscribeReq(session, obj, items, allowed) =>
      if allowed then
        var m := SubscribeItems(s.flat, session, obj, items);
        s' == State(m, s.cache, s.log + CachedSends(m, s.cache, session, obj, items, false))
      else
        // every item of a rejected request is unsubscribed, with all its filters if it names none
        s' == s.(flat := UnsubscribeItems(s.flat, session, obj, items))
    case UpdateReq(session, obj, items) =>
      s' == s.(log := s.log + CachedSends(s.flat, s.cache, session, obj, items, true))
    case UnsubscribeReq(session, obj, items) =>
      s' == s.(flat := if items == [] then Without(s.flat, OfObject(obj)) else UnsubscribeItems(s.flat, session, obj, items))
    case SessionLost(session) =>
      s' == s.(flat := Without(s.flat, OfSession(session)))
    case Publish(code, topic, payload, force, manual) =>
      var (cache, send) := UpdateEventCache(s.cache, code, topic, payload, force);
      && s'.flat == s.flat && s'.cache == cache
      && s.log <= s'.log
      && if send then SendsToAll(s.flat, code, topic, payload, manual, s'.log[|s.log|..]) else s'.log == s.log
    case PublishTo(session, obj, code, topic, payload, force, manual) =>
      var (cache, send) := UpdateEventCache(s.cache, code, topic, payload, force);
      s' == State(s.flat, cache,
                  if send then s.log + TargetedSends(s.flat, session, obj, code, topic, payload, manual) else s.log)
    case InitCache(code, topic, payload, always) =>
      var e := CacheAt(s.cache, code, topic).GetOr(EMPTY_DATA).(alwaysUpdate := always);
      s' == s.(cache := CachePut(s.cache, code, topic, SetEventCache(e, payload).0))
  }

  /** The last payload of (code, topic) handed to an object of a session. */
  function Last(log: seq<Delivery>, session: Session, obj: ObjectId, code: Code, topic: string): Option<Payload> {
    if log == [] then None
    else
      var d := log[|log| - 1];
      if d.session == session && d.obj == obj && d.code == code && d.topic == topic then Some(d.payload)
      else Last(log[..|log| - 1], session, obj, code, topic)
  }

  predicate ExactNormal(m: Flat, session: Session, obj: ObjectId, code: Code, topic: string) {
    FlatAt(m, Key(code, session, obj, topic)) == Some(Normal)
  }

  /** Every normal subscriber of an exact (code, topic) was last handed the cached value. */
  ghost predicate Coherent(s: State) {
    && ValidCache(s.cache)
    && forall session, obj, code, topic ::
         ExactNormal(s.flat, session, obj, code, topic) && CachedValue(s.cache, code, topic).Some? ==>
           Last(s.log, session, obj, code, topic) == CachedValue(s.cache, code, topic)
  }

  // ---------------------------------------------------------------------- lemmas

  /** Appending deliveries that all agree on a value: the last one is that value if any applies. */
  lemma {:induction false} LastAppend(log: seq<Delivery>, more: seq<Delivery>,
                                      session: Session, obj: ObjectId, code: Code, topic: string, v: Payload)
    requires forall d :: d in more && d.session == session && d.obj == obj && d.code == code && d.topic == topic ==> d.payload == v
    ensures Last(log + more, session, obj, code, topic) ==
            if Delivery(session, obj, code, topic, v) in more then Some(v) else Last(log, session, obj, code, topic)
  {
    if more == [] {
      assert log + more == log;
    } else {
      var n := |more| - 1;
      assert (log + more)[..|log + more| - 1] == log + more[..n];
      LastAppend(log, more[..n], session, obj, code, topic, v);
      assert more == more[..n] + [more[n]];
    }
  }

  predicate Lists(items: seq<Item>, code: Code, topic: string) {
    exists i :: 0 <= i < |items| && items[i].code == code && items[i].Topic() == topic
  }

  /** Entries not listed keep their type. */
  lemma {:induction false} SubscribeItemsOther(m: Flat, session: Session, obj: ObjectId, items: seq<Item>, k: Key)
    requires !(k.session == session && k.obj == obj && Lists(items, k.code, k.filter))
    ensures FlatAt(SubscribeItems(m, session, obj, items), k) == FlatAt(m, k)
  {
    if items != [] {
      var n := |items| - 1;
      assert forall i :: 0 <= i < n ==> items[..n][i] == items[i];
      SubscribeItemsOther(m, session, obj, items[..n], k);
      assert k != Key(items[n].code, session, obj, items[n].Topic());
    }
  }

  lemma {:induction false} UnsubscribeItemsShrinks(m: Flat, session: Session, obj: ObjectId, items: seq<Item>, k: Key)
    ensures FlatAt(UnsubscribeItems(m, session, obj, items), k).Some? ==>
              FlatAt(UnsubscribeItems(m, session, obj, items), k) == FlatAt(m, k)
  {
    if items != [] {
      UnsubscribeItemsShrinks(m, session, obj, items[..|items| - 1], k);
    }
  }

  /** Cached sends carry cached values only, and reach every exact normal entry that is listed. */
  lemma {:induction false} CachedSendsMeaning(m: Flat, cache: Cache, session: Session, obj: ObjectId,
                                              items: seq<Item>, manual: bool, code: Code, topic: string)
    ensures var sent := CachedSends(m, cache, session, obj, items, manual);
            && (forall d :: d in sent ==> d.session == session && d.obj == obj && CachedValue(cache, d.code, d.topic) == Some(d.payload))
            && (Lists(items, code, topic) && ExactNormal(m, session, obj, code, topic) && CachedValue(cache, code, topic).Some? ==>
                Delivery(session, obj, code, topic, CachedValue(cache, code, topic).value) in sent)
  {
    if items != [] {
      var n := |items| - 1;
      CachedSendsMeaning(m, cache, session, obj, items[..n], manual, code, topic);
      if Lists(items, code, topic) && !Lists(items[..n], code, topic) {
        assert forall i :: 0 <= i < n ==> items[..n][i] == items[i];
        assert items[n].code == code && items[n].Topic() == topic;
        if ExactNormal(m, session, obj, code, topic) && IsGroup(code) {
          GroupCodeUnique(code, code);
        }
      }
    }
  }

  /** Shrinking the relation keeps coherence. */
  lemma ShrinkCoherent(s: State, s': State)
    requires Coherent(s) && s'.cache == s.cache && s'.log == s.log
    requires forall k :: FlatAt(s'.flat, k).Some? ==> FlatAt(s'.flat, k) == FlatAt(s.flat, k)
    ensures Coherent(s')
  {
  }

  /** Sending cached values to one object keeps coherence, and makes the listed entries coherent. */
  lemma CachedSendsCoherent(s: State, s': State, session: Session, obj: ObjectId, items: seq<Item>, manual: bool)
    requires Coherent(s) && s'.cache == s.cache
    requires s'.log == s.log + CachedSends(s'.flat, s.cache, session, obj, items, manual)
    requires forall k: Key :: !(k.session == session && k.obj == obj && Lists(items, k.code, k.filter)) ==>
               FlatAt(s'.flat, k) == FlatAt(s.flat, k)
    ensures Coherent(s')
  {
    var more := CachedSends(s'.flat, s.cache, session, obj, items, manual);
    forall x, o, c, t | ExactNormal(s'.flat, x, o, c, t) && CachedValue(s.cache, c, t).Some?
      ensures Last(s'.log, x, o, c, t) == CachedValue(s.cache, c, t)
    {
      CachedSendsMeaning(s'.flat, s.cache, session, obj, items, manual, c, t);
      LastAppend(s.log, more, x, o, c, t, CachedValue(s.cache, c, t).value);
      if !(x == session && o == obj && Lists(items, c, t)) {
        assert FlatAt(s'.flat, Key(c, x, o, t)) == FlatAt(s.flat, Key(c, x, o, t));
        assert ExactNormal(s.flat, x, o, c, t);
      }
    }
  }

  lemma PublishCoherent(s: State, s': State, code: Code, topic: string, payload: Payload, force: bool, manual: bool)
    requires Coherent(s) && Step(s, Publish(code, topic, payload, force, manual), s')
    ensures Coherent(s')
  {
    UpdateMeaning(s.cache, code, topic, payload, force);
    var (cache, send) := UpdateEventCache(s.cache, code, topic, payload, force);
    var more := s'.log[|s.log|..];
    assert s'.log == s.log + more;
    forall x, o, c, t | ExactNormal(s'.flat, x, o, c, t) && CachedValue(s'.cache, c, t).Some?
      ensures Last(s'.log, x, o, c, t) == CachedValue(s'.cache, c, t)
    {
      if send {
        LastAppend(s.log, more, x, o, c, t, CachedValue(s'.cache, c, t).value);
        if c == code && t == topic {
          GroupCodeSelf(code);
          assert WantedByAny(s.flat, x, o, code, topic, manual);
          assert Delivery(x, o, code, topic, payload) in more;
        }
      }
    }
  }

  lemma GroupCodeSelf(code: Code)
    ensures IsGroup(code) ==> MakeGroup(code) == code
  {
    if IsGroup(code) { GroupCodeUnique(code, code); }
  }

  predicate WholeOp(op: Op) {
    !op.PublishTo? && !op.InitCache?
  }

  /** Every request, session loss and broadcast to all sessions keeps the cache coherent. */
  lemma StepCoherent(s: State, op: Op, s': State)
    requires Coherent(s) && Step(s, op, s') && WholeOp(op)
    ensures Coherent(s')
  {
    match op
    case SubscribeReq(session, obj, items, allowed) =>
      if allowed {
        forall k: Key | !(k.session == session && k.obj == obj && Lists(items, k.code, k.filter))
          ensures FlatAt(s'.flat, k) == FlatAt(s.flat, k)
        {
          SubscribeItemsOther(s.flat, session, obj, items, k);
        }
        CachedSendsCoherent(s, s', session, obj, items, false);
      } else {
        forall k ensures FlatAt(s'.flat, k).Some? ==> FlatAt(s'.flat, k) == FlatAt(s.flat, k) {
          UnsubscribeItemsShrinks(s.flat, session, obj, items, k);
        }
        ShrinkCoherent(s, s');
      }
    case UpdateReq(session, obj, items) =>
      CachedSendsCoherent(s, s', session, obj, items, true);
    case UnsubscribeReq(session, obj, items) =>
      forall k ensures FlatAt(s'.flat, k).Some? ==> FlatAt(s'.flat, k) == FlatAt(s.flat, k) {
        UnsubscribeItemsShrinks(s.flat, session, obj, items, k);
      }
      ShrinkCoherent(s, s');
    case SessionLost(session) =>
      ShrinkCoherent(s, s');
    case Publish(code, topic, payload, force, manual) =>
      PublishCoherent(s, s', code, topic, payload, force, manual);
  }

  // ------------------------------------------------- targeted and initial values

  /** Nothing was ever handed over that is not cached. */
  ghost predicate Backed(s: State) {
    ValidCache(s.cache) && forall d :: d in s.log ==> CachedValue(s.cache, d.code, d.topic).Some?
  }

  lemma {:induction false} LastOf(log: seq<Delivery>, session: Session, obj: ObjectId, code: Code, topic: string)
    ensures Last(log, session, obj, code, topic).Some? ==> exists d :: d in log && d.code == code && d.topic == topic
  {
    if log != [] {
      LastOf(log[..|log| - 1], session, obj, code, topic);
      assert log[|log| - 1] in log;
    }
  }

  lemma InitMeaning(cache: Cache, code: Code, topic: string, payload: Payload, always: bool)
    requires ValidCache(cache)
    ensures var e := CacheAt(cache, code, topic).GetOr(EMPTY_DATA).(alwaysUpdate := always);
            var cache' := CachePut(cache, code, topic, SetEventCache(e, payload).0);
            && ValidCache(cache')
            && (forall c, t :: CachedValue(cache', c, t) ==
                               if c == code && t == topic then Some(payload) else CachedValue(cache, c, t))
            && CacheAt(cache', code, topic).value.alwaysUpdate == always
  {
    var e := CacheAt(cache, code, topic).GetOr(EMPTY_DATA).(alwaysUpdate := always);
    SetEventCacheMeaning(e, payload);
    CachePutAt(cache, code, topic, SetEventCache(e, payload).0);
  }

  /** Every operation, targeted broadcasts and initial values included, keeps that. */
  lemma StepBacked(s: State, op: Op, s': State)
    requires Backed(s) && Step(s, op, s')
    ensures Backed(s')
  {
    match op
    case SubscribeReq(session, obj, items, allowed) =>
      if allowed {
        CachedSendsMeaning(s'.flat, s.cache, session, obj, items, false, 0, "");
      }
    case UpdateReq(session, obj, items) =>
      CachedSendsMeaning(s.flat, s.cache, session, obj, items, true, 0, "");
    case UnsubscribeReq(session, obj, items) =>
    case SessionLost(session) =>
    case Publish(code, topic, payload, force, manual) =>
      UpdateMeaning(s.cache, code, topic, payload, force);
      assert s'.log == s.log + s'.log[|s.log|..];
    case PublishTo(session, obj, code, topic, payload, force, manual) =>
      UpdateMeaning(s.cache, code, topic, payload, force);
    case InitCache(code, topic, payload, always) =>
      InitMeaning(s.cache, code, topic, payload, always);
  }

  /**
   A broadcast to one session stores its payload for everybody. It keeps coherence
   exactly when the payload is the cached one or the target is the only normal
   subscriber of that exact (code, topic).
   */
  lemma PublishToCoherentIff(s: State, session: Session, obj: ObjectId, code: Code, topic: string, payload: Payload,
                             force: bool, manual: bool, s': State)
    requires Coherent(s) && Backed(s) && Step(s, PublishTo(session, obj, code, topic, payload, force, manual), s')
    ensures Coherent(s') <==>
            || CachedValue(s.cache, code, topic) == Some(payload)
            || forall x, o :: ExactNormal(s.flat, x, o, code, topic) ==> x == session && o == obj
  {
    UpdateMeaning(s.cache, code, topic, payload, force);
    var (cache, send) := UpdateEventCache(s.cache, code, topic, payload, force);
    var more := if send then TargetedSends(s.flat, session, obj, code, topic, payload, manual) else [];
    assert s'.log == s.log + more;
    GroupCodeSelf(code);
    assert forall c, t :: CachedValue(cache, c, t).Some? && (c != code || t != topic) ==>
                                CachedValue(cache, c, t) == CachedValue(s.cache, c, t);
    forall x, o, c, t | ExactNormal(s.flat, x, o, c, t) && CachedValue(cache, c, t).Some?
      ensures Last(s'.log, x, o, c, t) == CachedValue(cache, c, t) <==>
              || c != code || t != topic || (x == session && o == obj) || CachedValue(s.cache, code, topic) == Some(payload)
    {
      LastAppend(s.log, more, x, o, c, t, CachedValue(cache, c, t).value);
      LastOf(s.log, x, o, c, t);
    }
    if x, o :| ExactNormal(s.flat, x, o, code, topic) && !(x == session && o == obj) {
      assert CachedValue(cache, code, topic) == Some(payload);
      assert Last(s'.log, x, o, code, topic) == CachedValue(cache, code, topic) <==> CachedValue(s.cache, code, topic) == Some(payload);
    }
  }

  /** initEventCache on a live object keeps coherence exactly when it stores the same value or nobody listens. */
  lemma InitCacheCoherentIff(s: State, code: Code, topic: string, payload: Payload, always: bool, s': State)
    requires Coherent(s) && Backed(s) && Step(s, InitCache(code, topic, payload, always), s')
    ensures Coherent(s') <==>
            CachedValue(s.cache, code, topic) == Some(payload) || forall x, o :: !ExactNormal(s.flat, x, o, code, topic)
  {
    InitMeaning(s.cache, code, topic, payload, always);
    if x, o :| ExactNormal(s.flat, x, o, code, topic) {
      LastOf(s.log, x, o, code, topic);
      assert Last(s.log, x, o, code, topic) == CachedValue(s.cache, code, topic);
      assert CachedValue(s'.cache, code, topic) == Some(payload);
    }
  }

  /** Targeted and initial values that leave nobody behind. */
  ghost predicate Harmless(s: State, op: Op) {
    match op
    case PublishTo(session, obj, code, topic, payload, _, _) =>
      || CachedValue(s.cache, code, topic) == Some(payload)
      || forall x, o :: ExactNormal(s.flat, x, o, code, topic) ==> x == session && o == obj
    case InitCache(code, topic, payload, _) =>
      CachedValue(s.cache, code, topic) == Some(payload) || forall x, o :: !ExactNormal(s.flat, x, o, code, topic)
    case _ => true
  }

  /** An operation keeps coherence exactly if it is harmless. */
  lemma StepCoherentIff(s: State, op: Op, s': State)
    requires Coherent(s) && Backed(s) && Step(s, op, s')
    ensures Coherent(s') <==> Harmless(s, op)
  {
    match op
    case PublishTo(session, obj, code, topic, payload, force, manual) =>
      PublishToCoherentIff(s, session, obj, code, topic, payload, force, manual, s');
    case InitCache(code, topic, payload, always) =>
      InitCacheCoherentIff(s, code, topic, payload, always, s');
    case _ =>
      StepCoherent(s, op, s');
  }

  // ------------------------------------------------------------------------ runs

  ghost predicate IsRun(states: seq<State>, ops: seq<Op>) {
    && |states| == |ops| + 1 && Coherent(states[0]) && Backed(states[0])
    && forall i :: 0 <= i < |ops| ==> Step(states[i], ops[i], states[i + 1])
  }

  predicate Stores(op: Op, code: Code, topic: string) {
    (op.Publish? || op.PublishTo? || op.InitCache?) && op.code == code && op.topic == topic
  }

  /** The payload of (code, topic) that was broadcast or set last. */
  function LastStored(ops: seq<Op>, code: Code, topic: string): Option<Payload> {
    if ops == [] then None
    else
      var op := ops[|ops| - 1];
      if Stores(op, code, topic) then Some(op.payload) else LastStored(ops[..|ops| - 1], code, topic)
  }

  lemma {:induction false} RunBacked(states: seq<State>, ops: seq<Op>, k: nat)
    requires IsRun(states, ops) && k <= |ops|
    ensures Backed(states[k])
  {
    if k > 0 {
      hide Step, Backed;
      RunBacked(states, ops, k - 1);
      StepBacked(states[k - 1], ops[k - 1], states[k]);
    }
  }

  /** What one operation does to the cached values. */
  lemma StepStores(s: State, op: Op, s': State)
    requires Backed(s) && Step(s, op, s')
    ensures forall c, t :: CachedValue(s'.cache, c, t) == if Stores(op, c, t) then Some(op.payload) else CachedValue(s.cache, c, t)
  {
    match op
    case Publish(code, topic, payload, force, _) => UpdateMeaning(s.cache, code, topic, payload, force);
    case PublishTo(_, _, code, topic, payload, force, _) => UpdateMeaning(s.cache, code, topic, payload, force);
    case InitCache(code, topic, payload, always) => InitMeaning(s.cache, code, topic, payload, always);
    case _ =>
  }

  lemma {:induction false} RunStores(states: seq<State>, ops: seq<Op>, k: nat)
    requires IsRun(states, ops) && k <= |ops|
    ensures forall c, t :: CachedValue(states[k].cache, c, t) ==
              if LastStored(ops[..k], c, t).Some? then LastStored(ops[..k], c, t) else CachedValue(states[0].cache, c, t)
  {
    if k > 0 {
      hide Step, Backed, CachedValue;
      RunStores(states, ops, k - 1);
      RunBacked(states, ops, k - 1);
      StepStores(states[k - 1], ops[k - 1], states[k]);
      assert ops[..k][..k - 1] == ops[..k - 1];
    }
  }

  /**
   Over any run of subscribe, update and unsubscribe requests, session losses,
   broadcasts to all sessions, and harmless targeted broadcasts and initial values, the
   cache holds the last payload and every exact normal subscriber was last handed that
   payload, although unchanged broadcasts are not sent.
   */
  lemma {:induction false} RunCoherent(states: seq<State>, ops: seq<Op>, k: nat)
    requires IsRun(states, ops) && k <= |ops|
    requires forall i :: 0 <= i < k ==> Harmless(states[i], ops[i])
    ensures Coherent(states[k])
    ensures forall c, t :: LastStored(ops[..k], c, t).Some? ==> CachedValue(states[k].cache, c, t) == LastStored(ops[..k], c, t)
    ensures forall x, o, c, t :: ExactNormal(states[k].flat, x, o, c, t) && LastStored(ops[..k], c, t).Some? ==>
              Last(states[k].log, x, o, c, t) == LastStored(ops[..k], c, t)
  {
    RunStores(states, ops, k);
    if k > 0 {
      RunCoherent(states, ops, k - 1);
      RunBacked(states, ops, k - 1);
      hide Step, Backed, Harmless, LastStored;
      StepCoherentIff(states[k - 1], ops[k - 1], states[k]);
    }
  }

  /** Exactly the runs with harmless operations only are coherent throughout. */
  lemma RunCoherentIff(states: seq<State>, ops: seq<Op>)
    requires IsRun(states, ops)
    ensures (forall k :: 0 <= k <= |ops| ==> Coherent(states[k])) <==> forall i :: 0 <= i < |ops| ==> Harmless(states[i], ops[i])
  {
    hide Step, Backed, Harmless, LastStored, Coherent;
    if forall i :: 0 <= i < |ops| ==> Harmless(states[i], ops[i]) {
      forall k | 0 <= k <= |ops| ensures Coherent(states[k]) {
        RunCoherent(states, ops, k);
      }
    }
    if forall k :: 0 <= k <= |ops| ==> Coherent(states[k]) {
      forall i | 0 <= i < |ops| ensures Harmless(states[i], ops[i]) {
        RunBacked(states, ops, i);
        StepCoherentIff(states[i], ops[i], states[i + 1]);
      }
    }
  }

  /** Subscriber 2 listens to (7, "t"), with nothing cached or with a value it has. */
  const LISTENING := State(map[Key(7, 2, 0, "t") := Normal], map[], [])
  const INFORMED := State(map[Key(7, 2, 0, "t") := Normal], map[7 := map["t" := EventData(Some([1]), 1, false)]],
                          [Delivery(2, 0, 7, "t", [1])])

  lemma ExamplesCoherent()
    ensures Coherent(LISTENING) && Backed(LISTENING) && Coherent(INFORMED) && Backed(INFORMED)
    ensures ExactNormal(LISTENING.flat, 2, 0, 7, "t") && ExactNormal(INFORMED.flat, 2, 0, 7, "t")
  {
    assert Last(INFORMED.log, 2, 0, 7, "t") == Some([1]);
  }

  /** The condition can fail: a subscriber is left behind by a broadcast to another, be it the first or a later one. */
  lemma PublishToCanStale(s: State) returns (s': State)
    requires s in {LISTENING, INFORMED}
    ensures Coherent(s) && Backed(s) && Step(s, PublishTo(1, 0, 7, "t", [2], false, false), s') && !Coherent(s')
  {
    ExamplesCoherent();
    var (cache, send) := UpdateEventCache(s.cache, 7, "t", [2], false);
    s' := State(s.flat, cache, if send then s.log + TargetedSends(s.flat, 1, 0, 7, "t", [2], false) else s.log);
    PublishToCoherentIff(s, 1, 0, 7, "t", [2], false, false, s');
  }

  /** So can that of an initial value, be it the first or a later one. */
  lemma InitCacheCanStale(s: State) returns (s': State)
    requires s in {LISTENING, INFORMED}
    ensures Coherent(s) && Backed(s) && Step(s, InitCache(7, "t", [2], false), s') && !Coherent(s')
  {
    ExamplesCoherent();
    var e := CacheAt(s.cache, 7, "t").GetOr(EMPTY_DATA).(alwaysUpdate := false);
    s' := s.(cache := CachePut(s.cache, 7, "t", SetEventCache(e, [2]).0));
    InitCacheCoherentIff(s, 7, "t", [2], false, s');
  }

  // ------------------------------------------------------------------ the object

  /** CEventData in place: the buffer is compared, kept or replaced, and written. */
  class EventBuffer {
    var buffer: array?<byte>
    var size: nat
    const alwaysUpdate: bool

    ghost predicate Valid()
      reads this, buffer
    {
      size == (if buffer == null then 0 else buffer.Length) && (buffer != null ==> size > 0)
    }

    ghost function View(): EventData
      reads this, buffer
    {
      EventData(if buffer == null then None else Some(buffer[..]), size, alwaysUpdate)
    }

    constructor (e: EventData)
      requires e.Valid()
      ensures Valid() && View() == e && (buffer != null ==> fresh(buffer))
    {
      size, alwaysUpdate := e.size, e.alwaysUpdate;
      if e.buffer.Some? {
        var value := e.buffer.value;
        buffer := new byte[|value|](i requires 0 <= i < |value| => value[i]);
      } else {
        buffer := null;
      }
      new;
      assert e.buffer.Some? ==> buffer[..] == e.buffer.value;
    }

    method Value() returns (e: EventData)
      requires Valid()
      ensures e == View()
    {
      e := EventData(if buffer == null then None else Some(buffer[..]), size, alwaysUpdate);
    }

    /** setEventCache: afterwards the buffer holds the payload; false only if it held it before. */
    method Set(payload: Payload) returns (updated: bool)
      requires Valid()
      modifies this, buffer
      ensures Valid() && View() == SetEventCache(old(View()), payload).0 && updated == SetEventCache(old(View()), payload).1
      ensures View().Value() == payload && (!updated <==> payload == old(View().Value()) && payload != [])
      ensures buffer != null && buffer != old(buffer) ==> fresh(buffer)
    {
      if |payload| == size {
        if buffer != null {
          var same := Compare(payload);
          if same {
            return false;
          }
        }
      } else {
        buffer := null;
        if |payload| > 0 {
          buffer := new byte[|payload|];
        }
        size := |payload|;
      }
      if buffer != null {
        Copy(payload);
      }
      updated := true;
    }

    /** memcmp. */
    method Compare(payload: Payload) returns (same: bool)
      requires buffer != null && buffer.Length == |payload|
      ensures same <==> buffer[..] == payload
    {
      var i := 0;
      while i < |payload|
        invariant 0 <= i <= |payload| && buffer[..i] == payload[..i]
      {
        if buffer[i] != payload[i] {
          return false;
        }
        i := i + 1;
      }
      same := true;
    }

    /** memcpy. */
    method Copy(payload: Payload)
      requires buffer != null && buffer.Length == |payload|
      modifies buffer
      ensures buffer[..] == payload
    {
      var i := 0;
      while i < |payload|
        invariant 0 <= i <= |payload| && buffer[..i] == payload[..i]
      {
        buffer[i] := payload[i];
        i := i + 1;
      }
    }
  }

  /** A CFdbBaseObject with the event cache enabled. */
  class EventSource {
    const tables: SubscriptionTables
    var cache: Cache
    var log: seq<Delivery>

    ghost predicate Valid()
      reads this, tables
    {
      tables.Valid() && ValidCache(cache)
    }

    ghost function View(): State
      reads this, tables
    {
      State(tables.View(), cache, log)
    }

    constructor ()
      ensures Valid() && fresh(tables) && View() == State(map[], map[], []) && Coherent(View()) && Backed(View())
    {
      tables := new SubscriptionTables();
      cache, log := map[], [];
    }

    /** The loop of doSubscribeReq: adds every listed item, or removes it. */
    method ApplyItems(session: Session, obj: ObjectId, items: seq<Item>, add: bool)
      requires Valid()
      modifies tables
      ensures Valid()
      ensures tables.View() == if add then SubscribeItems(old(tables.View()), session, obj, items)
                               else UnsubscribeItems(old(tables.View()), session, obj, items)
    {
      ghost var m := tables.View();
      var i := 0;
      while i < |items|
        invariant 0 <= i <= |items|
        invariant tables.Valid()
        invariant tables.View() == if add then SubscribeItems(m, session, obj, items[..i])
                                   else UnsubscribeItems(m, session, obj, items[..i])
      {
        assert items[..i + 1][..i] == items[..i];
        if add {
          tables.Subscribe(session, items[i].code, obj, items[i].filter, items[i].Type());
        } else {
          tables.Unsubscribe(session, items[i].code, obj, items[i].filter);
        }
        i := i + 1;
      }
      assert items[..i] == items;
    }

    /** doSubscribeReq for a subscribe list; `allowed` is the verdict on the request's code and session. */
    method SubscribeRequest(session: Session, obj: ObjectId, items: seq<Item>, allowed: bool)
      requires Valid()
      modifies this, tables
      ensures Valid() && Step(old(View()), SubscribeReq(session, obj, items, allowed), View())
    {
      ApplyItems(session, obj, items, allowed);
      if allowed {
        BroadcastCached(session, obj, items, false);
      }
    }

    /** doUpdate: a manual update, which also reaches on-request subscribers. */
    method UpdateRequest(session: Session, obj: ObjectId, items: seq<Item>)
      requires Valid()
      modifies this
      ensures Valid() && Step(old(View()), UpdateReq(session, obj, items), View())
    {
      BroadcastCached(session, obj, items, true);
    }

    /** doSubscribeReq for an unsubscribe list; an empty list drops the whole object. */
    method UnsubscribeRequest(session: Session, obj: ObjectId, items: seq<Item>)
      requires Valid()
      modifies tables
      ensures Valid() && Step(old(View()), UnsubscribeReq(session, obj, items), View())
    {
      ApplyItems(session, obj, items, false);
      if items == [] {
        tables.UnsubscribeObject(obj);
      }
    }

    method LoseSession(session: Session)
      requires Valid()
      modifies tables
      ensures Valid() && Step(old(View()), SessionLost(session), View())
    {
      tables.UnsubscribeSession(session);
    }

    /**
     updateEventCache: the payload becomes the cached value of its (code, topic), no other
     changes, and sending is suppressed exactly if it was that already.
     */
    method StoreInCache(msg: Message, force: bool) returns (send: bool)
      requires Valid()
      modifies this`cache
      ensures Valid() && (cache, send) == UpdateEventCache(old(cache), msg.code, msg.topic, msg.payload, force)
      ensures forall c, t :: CachedValue(cache, c, t) ==
                if c == msg.code && t == msg.topic then Some(msg.payload) else CachedValue(old(cache), c, t)
      ensures !send <==> && CachedValue(old(cache), msg.code, msg.topic) == Some(msg.payload) && msg.payload != [] && !force
                         && !CacheAt(old(cache), msg.code, msg.topic).value.alwaysUpdate
    {
      UpdateMeaning(cache, msg.code, msg.topic, msg.payload, force);
      var topics := if msg.code in cache then cache[msg.code] else map[];
      var e := if msg.topic in topics then topics[msg.topic] else EMPTY_DATA;
      var buffer := new EventBuffer(e);
      var updated := buffer.Set(msg.payload);
      e := buffer.Value();
      cache := cache[msg.code := topics[msg.topic := e]];
      send := updated || e.alwaysUpdate || force;
    }

    /** broadcast to all sessions: event subscribers first, then subscribers of the event's group. */
    method Broadcast(msg: Message, force: bool) returns (toEvents: seq<Delivery>, toGroups: seq<Delivery>)
      requires Valid() && msg.HeadFresh()
      modifies this
      ensures Valid() && Step(old(View()), Publish(msg.code, msg.topic, msg.payload, force, msg.manual), View())
      ensures log == old(log) + toEvents + toGroups
      ensures var send := UpdateEventCache(old(cache), msg.code, msg.topic, msg.payload, force).1;
              if send then SentOnce(tables.events, msg, msg.code, toEvents) && SentOnce(tables.groups, msg, MakeGroup(msg.code), toGroups)
              else toEvents == [] && toGroups == []
    {
      toEvents, toGroups := [], [];
      var send := StoreInCache(msg, force);
      if send {
        var m;
        m, toEvents := BroadcastToTable(tables.events, msg, msg.code);
        m, toGroups := BroadcastToTable(tables.groups, m, MakeGroup(msg.code));
        log := log + toEvents + toGroups;
        assert log[|old(log)|..] == toEvents + toGroups;
        BothTables(tables.events, tables.groups, msg, toEvents, toGroups);
      }
    }

    /** broadcast to one session, falling back to its group subscription. */
    method BroadcastTo(msg: Message, session: Session, force: bool)
      requires Valid() && msg.HeadFresh()
      modifies this
      ensures Valid()
      ensures var (cache', send) := UpdateEventCache(old(cache), msg.code, msg.topic, msg.payload, force);
              && cache == cache'
              && log == if send then old(log) + TargetedSends(tables.View(), session, msg.obj, msg.code, msg.topic, msg.payload, msg.manual)
                        else old(log)
      ensures Step(old(View()), PublishTo(session, msg.obj, msg.code, msg.topic, msg.payload, force, msg.manual), View())
    {
      var send := StoreInCache(msg, force);
      if send {
        EventMatch(tables.events, tables.groups, msg.code, session, msg.obj, msg.topic);
        GroupMatch(tables.events, tables.groups, msg.code, session, msg.obj, msg.topic);
        var m, found, sent := BroadcastToSession(tables.events, msg, session, msg.code);
        if !found {
          m, found, sent := BroadcastToSession(tables.groups, m, session, MakeGroup(msg.code));
        }
        log := log + sent;
      }
    }

    /** broadcastCached: re-sends the cached value of every listed (code, topic). */
    method BroadcastCached(session: Session, obj: ObjectId, items: seq<Item>, manual: bool)
      requires Valid()
      modifies this
      ensures Valid() && cache == old(cache)
      ensures log == old(log) + CachedSends(tables.View(), cache, session, obj, items, manual)
    {
      hide TargetedSends, UpdateEventCache, ValidCache, CachedValue;
      var i := 0;
      while i < |items|
        invariant 0 <= i <= |items|
        invariant Valid() && cache == old(cache)
        invariant log == old(log) + CachedSends(tables.View(), cache, session, obj, items[..i], manual)
      {
        assert items[..i + 1][..i] == items[..i];
        var value := CachedValue(cache, items[i].code, items[i].Topic());
        if value.Some? {
          UpdateIdempotent(cache, items[i].code, items[i].Topic());
          BroadcastTo(Message(items[i].code, items[i].Topic(), value.value, manual, obj, false, obj), session, true);
        }
        i := i + 1;
      }
      assert items[..i] == items;
    }

    /** initEventCache: the payload becomes the cached value, and the flag is set; nothing is sent. */
    method InitEventCache(code: Code, topic: Option<string>, payload: Payload, always: bool)
      requires Valid()
      modifies this`cache
      ensures Valid() && Step(old(View()), InitCache(code, topic.GetOr(""), payload, always), View())
      ensures forall c, t :: CachedValue(cache, c, t) ==
                if c == code && t == topic.GetOr("") then Some(payload) else CachedValue(old(cache), c, t)
      ensures CacheAt(cache, code, topic.GetOr("")).value.alwaysUpdate == always
    {
      var t := topic.GetOr("");
      InitMeaning(cache, code, t, payload, always);
      var topics := if code in cache then cache[code] else map[];
      var e := if t in topics then topics[t] else EMPTY_DATA;
      var buffer := new EventBuffer(e.(alwaysUpdate := always));
      var updated := buffer.Set(payload);
      e := buffer.Value();
      cache := cache[code := topics[t := e]];
    }
  }

  /** The two table broadcasts together reach exactly the pairs the relation makes eligible. */
  lemma BothTables(events: Table, groups: Table, msg: Message, toEvents: seq<Delivery>, toGroups: seq<Delivery>)
    requires Separate(events, groups)
    requires SentOnce(events, msg, msg.code, toEvents) && SentOnce(groups, msg, MakeGroup(msg.code), toGroups)
    ensures SendsToAll(Flatten(events, groups), msg.code, msg.topic, msg.payload, msg.manual, toEvents + toGroups)
  {
    hide SentOnce, WantedByAny, Flatten, Separate;
    forall d ensures d in toEvents + toGroups <==>
      && d.code == msg.code && d.topic == msg.topic && d.payload == msg.payload
      && WantedByAny(Flatten(events, groups), d.session, d.obj, msg.code, msg.topic, msg.manual)
    {
      OneOfBoth(events, groups, msg, toEvents, toGroups, d);
    }
  }

  lemma OneOfBoth(events: Table, groups: Table, msg: Message, toEvents: seq<Delivery>, toGroups: seq<Delivery>, d: Delivery)
    requires Separate(events, groups)
    requires SentOnce(events, msg, msg.code, toEvents) && SentOnce(groups, msg, MakeGroup(msg.code), toGroups)
    ensures d in toEvents || d in toGroups <==>
      && d.code == msg.code && d.topic == msg.topic && d.payload == msg.payload
      && WantedByAny(Flatten(events, groups), d.session, d.obj, msg.code, msg.topic, msg.manual)
  {
    EventMatch(events, groups, msg.code, d.session, d.obj, msg.topic);
    GroupMatch(events, groups, msg.code, d.session, d.obj, msg.topic);
    assert d in toEvents <==> Carries(d, msg) && Wants(TableMatch(events, msg.code, d.session, d.obj, msg.topic), msg.manual);
    assert d in toGroups <==> Carries(d, msg) && Wants(TableMatch(groups, MakeGroup(msg.code), d.session, d.obj, msg.topic), msg.manual);
    hide SentOnce, Separate, Flatten, FlatMatch, TableMatch, IsGroup, MakeGroup;
  }
}
