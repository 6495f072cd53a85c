/**
 Who receives what, told entry by entry of the relation (code, session, object, filter)
 and of the log, for single requests and broadcasts and for whole runs of them.
 */
module Receiving {
  import opened Common
  import opened EventCodes
  import opened Subscriptions
  import opened Publishing
  import opened EventCache

  // ------------------------------------------------------- what requests change

  /** The type the last matching item of a subscribe list gives an entry, if one does. */
  function GivenType(items: seq<Item>, code: Code, topic: string): Option<SubscribeType> {
    if items == [] then None
    else
      var it := items[|items| - 1];
      if it.code == code && (it.filter == Some(topic) || (it.filter == None && topic == "")) then
        Some(if it.subType.Some? then it.subType.value else Normal)
      else GivenType(items[..|items| - 1], code, topic)
  }

  /** An unsubscribe list covers an entry: an item names its code, and its filter or none. */
  predicate Covers(items: seq<Item>, code: Code, topic: string) {
    exists i :: 0 <= i < |items| && items[i].code == code && (items[i].filter == None || items[i].filter == Some(topic))
  }

  lemma {:induction false} SubscribeItemsAt(m: Flat, x: Session, o: ObjectId, items: seq<Item>, k: Key)
    ensures FlatAt(SubscribeItems(m, x, o, items), k) ==
            if k.session == x && k.obj == o && GivenType(items, k.code, k.filter).Some?
            then GivenType(items, k.code, k.filter) else FlatAt(m, k)
  {
    if items != [] {
      SubscribeItemsAt(m, x, o, items[..|items| - 1], k);
    }
  }

  lemma {:induction false} UnsubscribeItemsAt(m: Flat, x: Session, o: ObjectId, items: seq<Item>, k: Key)
    ensures FlatAt(UnsubscribeItems(m, x, o, items), k) ==
            if k.session == x && k.obj == o && Covers(items, k.code, k.filter) then None else FlatAt(m, k)
  {
    if items != [] {
      var n := |items| - 1;
      UnsubscribeItemsAt(m, x, o, items[..n], k);
      assert forall i :: 0 <= i < n ==> items[..n][i] == items[i];
      assert Covers(items, k.code, k.filter) <==>
             Covers(items[..n], k.code, k.filter) || (items[n].code == k.code && (items[n].filter == None || items[n].filter == Some(k.filter)));
    }
  }

  lemma {:induction false} GivenLast(items: seq<Item>, i: nat)
    requires i < |items|
    requires forall j :: i < j < |items| ==> items[j].code != items[i].code || items[j].filter.GetOr("") != items[i].filter.GetOr("")
    ensures GivenType(items, items[i].code, items[i].filter.GetOr("")) == Some(items[i].subType.GetOr(Normal))
  {
    var n := |items| - 1;
    if i < n {
      assert items[n].code != items[i].code || items[n].filter.GetOr("") != items[i].filter.GetOr("");
      assert forall j :: 0 <= j < n ==> items[..n][j] == items[j];
      GivenLast(items[..n], i);
    }
  }

  lemma {:induction false} GivenListed(items: seq<Item>, code: Code, topic: string)
    ensures GivenType(items, code, topic).Some? <==> Lists(items, code, topic)
  {
    if items != [] {
      var n := |items| - 1;
      GivenListed(items[..n], code, topic);
      assert forall j :: 0 <= j < n ==> items[..n][j] == items[j];
      assert Lists(items, code, topic) <==> Lists(items[..n], code, topic) || (items[n].code == code && items[n].Topic() == topic);
    }
  }

  /**
   After an authorised subscribe request every listed entry is in the relation with the
   type listed for it last, normal if none is given; a missing filter is the empty one.
   */
  lemma SubscribedAsListed(s: State, s': State, x: Session, o: ObjectId, items: seq<Item>, i: nat)
    requires Step(s, SubscribeReq(x, o, items, true), s') && i < |items|
    requires forall j :: i < j < |items| ==> items[j].code != items[i].code || items[j].filter.GetOr("") != items[i].filter.GetOr("")
    ensures var it := items[i];
            var k := Key(it.code, x, o, if it.filter.Some? then it.filter.value else "");
            k in s'.flat && s'.flat[k] == if it.subType.Some? then it.subType.value else Normal
  {
    GivenLast(items, i);
    SubscribeItemsAt(s.flat, x, o, items, Key(items[i].code, x, o, items[i].filter.GetOr("")));
  }

  /** No other entry changes, and neither does the cache. */
  lemma SubscribeLeavesOthers(s: State, s': State, x: Session, o: ObjectId, items: seq<Item>, k: Key)
    requires Step(s, SubscribeReq(x, o, items, true), s')
    requires k.session == x && k.obj == o ==>
               forall i :: 0 <= i < |items| ==> items[i].code != k.code || (if items[i].filter.Some? then items[i].filter.value else "") != k.filter
    ensures FlatAt(s'.flat, k) == FlatAt(s.flat, k) && s'.cache == s.cache
  {
    GivenListed(items, k.code, k.filter);
    SubscribeItemsAt(s.flat, x, o, items, k);
  }

  /**
   A rejected request and an unsubscribe list take away exactly the entries of that session
   and object that are listed, with every filter where none is named. An empty unsubscribe
   list takes the object away from every session, and a lost session all its entries.
   */
  lemma RemovedExactly(s: State, op: Op, s': State, k: Key)
    requires Step(s, op, s') && ((op.SubscribeReq? && !op.allowed) || op.UnsubscribeReq? || op.SessionLost?)
    ensures var goes :=
              if op.SessionLost? then k.session == op.session
              else if op.UnsubscribeReq? && op.items == [] then k.obj == op.obj
              else && k.session == op.session && k.obj == op.obj
                   && exists i :: 0 <= i < |op.items| && op.items[i].code == k.code &&
                                  (op.items[i].filter == None || op.items[i].filter == Some(k.filter));
            && (k in s'.flat <==> k in s.flat && !goes)
            && (k in s'.flat ==> s'.flat[k] == s.flat[k])
            && s'.cache == s.cache && s'.log == s.log
  {
    if !op.SessionLost? {
      UnsubscribeItemsAt(s.flat, op.session, op.obj, op.items, k);
    }
  }

  // --------------------------------------------------------- who is sent a frame

  /**
   A broadcast that the cache does not suppress goes to an object of a session exactly if,
   under the event or its group, the entry with the exact filter, or in its absence the one
   with the empty filter, is normal or the broadcast is a manual update.
   */
  lemma PublishDeliversIff(s: State, s': State, code: Code, topic: string, payload: Payload, force: bool, manual: bool,
                           x: Session, o: ObjectId)
    requires ValidCache(s.cache) && Step(s, Publish(code, topic, payload, force, manual), s')
    ensures var m := s.flat;
            var known := && CachedValue(s.cache, code, topic) == Some(payload) && payload != []
                         && !CacheAt(s.cache, code, topic).value.alwaysUpdate;
            Delivery(x, o, code, topic, payload) in s'.log[|s.log|..] <==>
            && (force || !known)
            && exists c {:trigger Key(c, x, o, topic)} :: (c == code || c == MakeGroup(code)) &&
                 (if Key(c, x, o, topic) in m then manual || m[Key(c, x, o, topic)] == Normal
                  else Key(c, x, o, "") in m && (manual || m[Key(c, x, o, "")] == Normal))
  {
    UpdateMeaning(s.cache, code, topic, payload, force);
    GroupCodeSelf(code);
    hide UpdateEventCache, CacheAt, MakeGroup;
    var here, group := Key(code, x, o, topic), Key(MakeGroup(code), x, o, topic);
  }

  /** The entry that decides for a targeted frame: exact before empty filter, event before group. */
  lemma TargetedIff(m: Flat, x: Session, o: ObjectId, code: Code, topic: string, payload: Payload, manual: bool)
    ensures var g := MakeGroup(code);
            var k := if Key(code, x, o, topic) in m then Key(code, x, o, topic)
                     else if Key(code, x, o, "") in m then Key(code, x, o, "")
                     else if Key(g, x, o, topic) in m then Key(g, x, o, topic) else Key(g, x, o, "");
            TargetedSends(m, x, o, code, topic, payload, manual) ==
            if k in m && (manual || m[k] == Normal) then [Delivery(x, o, code, topic, payload)] else []
  {
    GroupCodeSelf(code);
    hide MakeGroup, IsGroup;
  }

  /** A targeted broadcast that is not suppressed is sent exactly if the deciding entry is normal or it is manual. */
  lemma PublishToDeliversIff(s: State, s': State, x: Session, o: ObjectId, code: Code, topic: string, payload: Payload,
                             force: bool, manual: bool)
    requires ValidCache(s.cache) && Step(s, PublishTo(x, o, code, topic, payload, force, manual), s')
    ensures var m, g := s.flat, MakeGroup(code);
            var k := if Key(code, x, o, topic) in m then Key(code, x, o, topic)
                     else if Key(code, x, o, "") in m then Key(code, x, o, "")
                     else if Key(g, x, o, topic) in m then Key(g, x, o, topic) else Key(g, x, o, "");
            var known := && CachedValue(s.cache, code, topic) == Some(payload) && payload != []
                         && !CacheAt(s.cache, code, topic).value.alwaysUpdate;
            s'.log == s.log + if (force || !known) && k in m && (manual || m[k] == Normal)
                              then [Delivery(x, o, code, topic, payload)] else []
  {
    TargetedIff(s.flat, x, o, code, topic, payload, manual);
    UpdateMeaning(s.cache, code, topic, payload, force);
    hide TargetedSends, UpdateEventCache, CacheAt, MakeGroup;
  }

  lemma {:induction false} CachedSendsIff(m: Flat, cache: Cache, x: Session, o: ObjectId, items: seq<Item>, manual: bool, d: Delivery)
    ensures d in CachedSends(m, cache, x, o, items, manual) <==>
            && Lists(items, d.code, d.topic) && CachedValue(cache, d.code, d.topic) == Some(d.payload)
            && d in TargetedSends(m, x, o, d.code, d.topic, d.payload, manual)
  {
    if items != [] {
      var n := |items| - 1;
      CachedSendsIff(m, cache, x, o, items[..n], manual, d);
      assert forall j :: 0 <= j < n ==> items[..n][j] == items[j];
      assert Lists(items, d.code, d.topic) <==>
             Lists(items[..n], d.code, d.topic) || (items[n].code == d.code && items[n].Topic() == d.topic);
      SentIsAddressed(m, x, o, items[n].code, items[n].Topic(), CachedValue(cache, items[n].code, items[n].Topic()).GetOr([]), manual, d);
      hide TargetedSends, CachedValue;
    }
  }

  lemma SentIsAddressed(m: Flat, x: Session, o: ObjectId, code: Code, topic: string, payload: Payload, manual: bool, d: Delivery)
    ensures d in TargetedSends(m, x, o, code, topic, payload, manual) ==> d == Delivery(x, o, code, topic, payload)
  {
  }

  /**
   An update request, and an authorised subscribe request, send the object exactly the
   cached values of the listed entries for which it has a deciding entry; after a subscribe
   request, in the relation it leaves behind, only where that is normal.
   */
  lemma CachedDeliversIff(s: State, op: Op, s': State, d: Delivery)
    requires Step(s, op, s') && (op.UpdateReq? || (op.SubscribeReq? && op.allowed))
    ensures var m, x, o, g := s'.flat, op.session, op.obj, MakeGroup(d.code);
            var k := if Key(d.code, x, o, d.topic) in m then Key(d.code, x, o, d.topic)
                     else if Key(d.code, x, o, "") in m then Key(d.code, x, o, "")
                     else if Key(g, x, o, d.topic) in m then Key(g, x, o, d.topic) else Key(g, x, o, "");
            && s.log <= s'.log && (op.UpdateReq? ==> m == s.flat)
            && (d in s'.log[|s.log|..] <==>
                && d.session == x && d.obj == o
                && (exists i :: 0 <= i < |op.items| && op.items[i].code == d.code &&
                                (if op.items[i].filter.Some? then op.items[i].filter.value else "") == d.topic)
                && CachedValue(s.cache, d.code, d.topic) == Some(d.payload)
                && k in m && (op.UpdateReq? || m[k] == Normal))
  {
    var m, manual := s'.flat, op.UpdateReq?;
    var more := CachedSends(m, s.cache, op.session, op.obj, op.items, manual);
    assert s'.log == s.log + more && s'.log[|s.log|..] == more;
    CachedSendsIff(m, s.cache, op.session, op.obj, op.items, manual, d);
    TargetedIff(m, op.session, op.obj, d.code, d.topic, d.payload, manual);
    hide CachedSends, TargetedSends, CachedValue, MakeGroup, Step;
  }

  // ------------------------------------------------------------------ whole runs

  /** What the requests of a run say last about an entry: subscribed with a type, or not; `first` if they say nothing. */
  function LastWord(ops: seq<Op>, k: Key, first: Option<SubscribeType>): Option<SubscribeType> {
    if ops == [] then first
    else
      var op, before := ops[|ops| - 1], LastWord(ops[..|ops| - 1], k, first);
      match op
      case SubscribeReq(x, o, items, allowed) =>
        if k.session != x || k.obj != o then before
        else if allowed then (if GivenType(items, k.code, k.filter).Some? then GivenType(items, k.code, k.filter) else before)
        else if Covers(items, k.code, k.filter) then None else before
      case UnsubscribeReq(x, o, items) =>
        if items == [] then (if k.obj == o then None else before)
        else if k.session == x && k.obj == o && Covers(items, k.code, k.filter) then None else before
      case SessionLost(x) => if k.session == x then None else before
      case _ => before
  }

  lemma StepWord(s: State, op: Op, s': State, k: Key)
    requires Step(s, op, s')
    ensures FlatAt(s'.flat, k) == LastWord([op], k, FlatAt(s.flat, k))
  {
    assert [op][..0] == [];
    assert LastWord([op][..0], k, FlatAt(s.flat, k)) == FlatAt(s.flat, k);
    if op.SubscribeReq? || op.UnsubscribeReq? {
      SubscribeItemsAt(s.flat, op.session, op.obj, op.items, k);
      UnsubscribeItemsAt(s.flat, op.session, op.obj, op.items, k);
    }
    hide SubscribeItems, UnsubscribeItems, GivenType, Covers, UpdateEventCache;
  }

  lemma WordOfLast(ops: seq<Op>, k: Key, first: Option<SubscribeType>)
    requires ops != []
    ensures LastWord(ops, k, first) == LastWord([ops[|ops| - 1]], k, LastWord(ops[..|ops| - 1], k, first))
  {
    var op := ops[|ops| - 1];
    assert [op][..0] == [] && LastWord([], k, LastWord(ops[..|ops| - 1], k, first)) == LastWord(ops[..|ops| - 1], k, first);
    hide GivenType, Covers;
  }

  /** In every state of every run an entry is in the relation, with its type, as the requests so far said last. */
  lemma {:induction false} RunSubscriptions(states: seq<State>, ops: seq<Op>, i: nat, k: Key)
    requires IsRun(states, ops) && i <= |ops|
    ensures FlatAt(states[i].flat, k) == LastWord(ops[..i], k, FlatAt(states[0].flat, k))
  {
    if i > 0 {
      hide Step, FlatAt;
      RunSubscriptions(states, ops, i - 1, k);
      StepWord(states[i - 1], ops[i - 1], states[i], k);
      WordOfLast(ops[..i], k, FlatAt(states[0].flat, k));
      assert ops[..i][..i - 1] == ops[..i - 1];
    }
  }

  /**
   Over whole runs: a broadcast that brings a payload other than the last one stored, if
   any was, is handed to an object exactly if the last word about it under the event or its
   group, exact before empty filter, was a normal subscription, or any for a manual update.
   */
  lemma RunDelivers(states: seq<State>, ops: seq<Op>, i: nat, x: Session, o: ObjectId)
    requires IsRun(states, ops) && i < |ops| && ops[i].Publish? && states[0].flat == map[] && states[0].cache == map[]
    requires LastStored(ops[..i], ops[i].code, ops[i].topic) != Some(ops[i].payload) || ops[i].payload == [] || ops[i].force
    ensures var op := ops[i];
            Delivery(x, o, op.code, op.topic, op.payload) in states[i + 1].log[|states[i].log|..] <==>
            exists c {:trigger Key(c, x, o, op.topic)} :: (c == op.code || c == MakeGroup(op.code)) &&
              var exact := LastWord(ops[..i], Key(c, x, o, op.topic), None);
              var entry := if exact.Some? then exact else LastWord(ops[..i], Key(c, x, o, ""), None);
              entry.Some? && (op.manual || entry.value == Normal)
  {
    var op, s, s' := ops[i], states[i], states[i + 1];
    assert Step(s, op, s');
    RunStores(states, ops, i);
    RunBacked(states, ops, i);
    assert CachedValue(states[0].cache, op.code, op.topic) == None;
    PublishDeliversIff(s, s', op.code, op.topic, op.payload, op.force, op.manual, x, o);
    forall c {:trigger Key(c, x, o, op.topic)} | c == op.code || c == MakeGroup(op.code)
      ensures LastWord(ops[..i], Key(c, x, o, op.topic), None) == FlatAt(s.flat, Key(c, x, o, op.topic))
      ensures LastWord(ops[..i], Key(c, x, o, ""), None) == FlatAt(s.flat, Key(c, x, o, ""))
    {
      RunSubscriptions(states, ops, i, Key(c, x, o, op.topic));
      RunSubscriptions(states, ops, i, Key(c, x, o, ""));
    }
    hide Step, LastWord, LastStored, CachedValue, MakeGroup, IsRun;
  }
}
