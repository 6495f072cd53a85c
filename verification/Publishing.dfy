/**
 Broadcasting over the subscription tables of CFdbBaseObject: which subscribers
 a message is sent to, and which sessions getSubscribeTable reports.
 */
module Publishing {
  import opened Common
  import opened EventCodes
  import opened Subscriptions

  type Payload = seq<byte>

  /**
   The fields of CFdbMessage that broadcasting touches. `headOk` says that the
   header bytes in the buffer are up to date; `headObj` is the object id in them.
   */
  datatype Message = Message(
    code: Code, topic: string, payload: Payload, manual: bool, obj: ObjectId, headOk: bool, headObj: ObjectId)
  {
    predicate HeadFresh() {
      headOk ==> headObj == obj
    }

    function UpdateObjectId(o: ObjectId): Message {
      if obj != o then this.(headOk := false, obj := o) else this
    }

    function BuildHeader(): Message {
      if headOk then this else this.(headOk := true, headObj := obj)
    }

    /** Same content, whatever the header state. */
    predicate SameBody(m: Message) {
      m.code == code && m.topic == topic && m.payload == payload && m.manual == manual
    }
  }

  /** A frame handed to a session: the object id is the one in the transmitted header. */
  datatype Delivery = Delivery(session: Session, obj: ObjectId, code: Code, topic: string, payload: Payload)

  predicate Carries(d: Delivery, msg: Message) {
    d.code == msg.code && d.topic == msg.topic && d.payload == msg.payload
  }

  /** The entry that decides for an object: its exact filter, else its wildcard filter. */
  function FilterMatch(filters: FilterTable, topic: string): Option<SubscribeType> {
    if topic in filters then Some(filters[topic])
    else if topic != "" && "" in filters then Some(filters[""])
    else None
  }

  predicate Wants(entry: Option<SubscribeType>, manual: bool) {
    entry.Some? && (entry.value.Normal? || manual)
  }

  /** The deciding entry read off a relation, with no reference to the nested tables. */
  function FlatMatch(m: Flat, code: Code, session: Session, obj: ObjectId, topic: string): Option<SubscribeType> {
    var exact := FlatAt(m, Key(code, session, obj, topic));
    if exact.Some? then exact else FlatAt(m, Key(code, session, obj, ""))
  }

  function TableMatch(t: Table, code: Code, session: Session, obj: ObjectId, topic: string): Option<SubscribeType> {
    if code in t && session in t[code] && obj in t[code][session] then FilterMatch(t[code][session][obj], topic) else None
  }

  lemma EventMatch(events: Table, groups: Table, code: Code, session: Session, obj: ObjectId, topic: string)
    requires Separate(events, groups)
    ensures TableMatch(events, code, session, obj, topic) ==
            if IsGroup(code) then None else FlatMatch(Flatten(events, groups), code, session, obj, topic)
  {
    FlattenAt(events, groups, Key(code, session, obj, topic));
    FlattenAt(events, groups, Key(code, session, obj, ""));
  }

  lemma GroupMatch(events: Table, groups: Table, code: Code, session: Session, obj: ObjectId, topic: string)
    requires Separate(events, groups)
    ensures TableMatch(groups, MakeGroup(code), session, obj, topic) ==
            FlatMatch(Flatten(events, groups), MakeGroup(code), session, obj, topic)
  {
    FlattenAt(events, groups, Key(MakeGroup(code), session, obj, topic));
    FlattenAt(events, groups, Key(MakeGroup(code), session, obj, ""));
  }

  // --------------------------------------------------------------- broadcasting

  /** `sent` holds one delivery of `msg` for each pair the table makes eligible, and nothing else. */
  ghost predicate SentOnce(t: Table, msg: Message, event: Code, sent: seq<Delivery>) {
    && Distinct(sent)
    && forall d :: d in sent <==>
         Carries(d, msg) && Wants(TableMatch(t, event, d.session, d.obj, msg.topic), msg.manual)
  }

  lemma DistinctAppend(a: seq<Delivery>, b: seq<Delivery>)
    requires Distinct(a) && Distinct(b) && forall d :: d in a ==> d !in b
    ensures Distinct(a + b)
  {
    forall i, j | 0 <= i < j < |a + b| ensures (a + b)[i] != (a + b)[j] {
      if i < |a| <= j {
        assert (a + b)[i] in a && (a + b)[j] in b;
      }
    }
  }

  /** broadcastOneMsg: sends unless the entry is on-request and the update is not manual. */
  method SendOne(msg: Message, session: Session, entry: SubscribeType) returns (msg': Message, sent: seq<Delivery>)
    requires msg.HeadFresh()
    ensures msg'.SameBody(msg) && msg'.HeadFresh() && msg'.obj == msg.obj
    ensures sent == if entry == Normal || msg.manual
                    then [Delivery(session, msg.obj, msg.code, msg.topic, msg.payload)] else []
  {
    msg', sent := msg, [];
    if entry.Normal? || msg.manual {
      msg' := msg.BuildHeader();
      sent := [Delivery(session, msg'.headObj, msg'.code, msg'.topic, msg'.payload)];
    }
  }

  method BroadcastToObjects(objects: ObjectTable, session: Session, msg: Message) returns (msg': Message, sent: seq<Delivery>)
    requires msg.HeadFresh()
    ensures msg'.SameBody(msg) && msg'.HeadFresh()
    ensures Distinct(sent)
    ensures forall d :: d in sent <==>
              && Carries(d, msg) && d.session == session && d.obj in objects
              && Wants(FilterMatch(objects[d.obj], msg.topic), msg.manual)
  {
    msg', sent := msg, [];
    var todo := objects.Keys;
    while todo != {}
      invariant todo <= objects.Keys
      invariant msg'.SameBody(msg) && msg'.HeadFresh()
      invariant Distinct(sent)
      invariant forall d :: d in sent <==>
                  && Carries(d, msg) && d.session == session && d.obj in objects && d.obj !in todo
                  && Wants(FilterMatch(objects[d.obj], msg.topic), msg.manual)
    {
      ghost var member := Member(todo);
      var obj :| obj in todo;
      todo := todo - {obj};
      msg' := msg'.UpdateObjectId(obj);
      var filters := objects[obj];
      var one: seq<Delivery> := [];
      if msg.topic in filters {
        msg', one := SendOne(msg', session, filters[msg.topic]);
      } else if msg.topic != "" && "" in filters {
        msg', one := SendOne(msg', session, filters[""]);
      }
      DistinctAppend(sent, one);
      sent := sent + one;
    }
  }

  /** broadcast of a message to every session and object subscribed under `event` in one table. */
  method BroadcastToTable(t: Table, msg: Message, event: Code) returns (msg': Message, sent: seq<Delivery>)
    requires msg.HeadFresh()
    ensures msg'.SameBody(msg) && msg'.HeadFresh()
    ensures SentOnce(t, msg, event, sent)
  {
    msg', sent := msg, [];
    if event in t {
      var sessions := t[event];
      var todo := sessions.Keys;
      while todo != {}
        invariant todo <= sessions.Keys
        invariant msg'.SameBody(msg) && msg'.HeadFresh()
        invariant Distinct(sent)
        invariant forall d :: d in sent <==>
                    && Carries(d, msg) && d.session !in todo
                    && Wants(TableMatch(t, event, d.session, d.obj, msg.topic), msg.manual)
      {
        ghost var member := Member(todo);
        var session :| session in todo;
        todo := todo - {session};
        var more;
        msg', more := BroadcastToObjects(sessions[session], session, msg');
        DistinctAppend(sent, more);
        sent := sent + more;
      }
    }
  }

  /** broadcast to one session and the message's own object; says whether an entry was found. */
  method BroadcastToSession(t: Table, msg: Message, session: Session, event: Code)
    returns (msg': Message, found: bool, sent: seq<Delivery>)
    requires msg.HeadFresh()
    ensures msg'.SameBody(msg) && msg'.HeadFresh() && msg'.obj == msg.obj
    ensures var entry := TableMatch(t, event, session, msg.obj, msg.topic);
            && found == entry.Some?
            && sent == if Wants(entry, msg.manual)
                       then [Delivery(session, msg.obj, msg.code, msg.topic, msg.payload)] else []
  {
    msg', found, sent := msg, false, [];
    if event in t && session in t[event] && msg.obj in t[event][session] {
      var filters := t[event][session][msg.obj];
      if msg.topic in filters {
        msg', sent := SendOne(msg, session, filters[msg.topic]);
        found := true;
      } else if msg.topic != "" && "" in filters {
        msg', sent := SendOne(msg, session, filters[""]);
        found := true;
      }
    }
  }

  // -------------------------------------------------------------- getSubscribeTable

  /** The sessions that would receive a non-manual broadcast of (code, topic) from one table. */
  method SubscribedSessions(t: Table, code: Code, filter: Option<string>) returns (r: set<Session>)
    ensures forall s :: s in r <==> exists o :: Wants(TableMatch(t, code, s, o, filter.GetOr("")), false)
  {
    r := {};
    if code in t {
      var topic := filter.GetOr("");
      var sessions := t[code];
      var todo := sessions.Keys;
      while todo != {}
        invariant todo <= sessions.Keys
        invariant forall s :: s in r <==> s !in todo && exists o :: Wants(TableMatch(t, code, s, o, topic), false)
      {
        ghost var member := Member(todo);
        var session :| session in todo;
        var some := AnyNormal(sessions[session], topic);
        assert some <==> exists o :: Wants(TableMatch(t, code, session, o, topic), false) by {
          assert forall o :: TableMatch(t, code, session, o, topic) ==
                             if o in sessions[session] then FilterMatch(sessions[session][o], topic) else None;
        }
        todo := todo - {session};
        r := if some then r + {session} else r;
      }
    }
  }

  /** The inner loop of getSubscribeTable: stops at the first object with a normal entry. */
  method AnyNormal(objects: ObjectTable, topic: string) returns (some: bool)
    ensures some <==> exists o :: o in objects && Wants(FilterMatch(objects[o], topic), false)
  {
    var todo := objects.Keys;
    some := false;
    while todo != {} && !some
      invariant todo <= objects.Keys
      invariant some ==> exists o :: o in objects && Wants(FilterMatch(objects[o], topic), false)
      invariant !some ==> forall o :: o in objects && o !in todo ==> !Wants(FilterMatch(objects[o], topic), false)
    {
      ghost var member := Member(todo);
      var obj :| obj in todo;
      todo := todo - {obj};
      var filters := objects[obj];
      if topic in filters {
        some := filters[topic].Normal?;
      } else if topic != "" && "" in filters {
        some := filters[""].Normal?;
      }
    }
  }

  /**
   The sessions a non-manual broadcast reaches are those getSubscribeTable returns
   for the same code and filter.
   */
  lemma ReceivingSessions(events: Table, groups: Table, msg: Message,
                          toEvents: seq<Delivery>, toGroups: seq<Delivery>, re: set<Session>, rg: set<Session>)
    requires !msg.manual
    requires SentOnce(events, msg, msg.code, toEvents) && SentOnce(groups, msg, MakeGroup(msg.code), toGroups)
    requires forall s :: s in re <==> exists o :: Wants(TableMatch(events, msg.code, s, o, msg.topic), false)
    requires forall s :: s in rg <==> exists o :: Wants(TableMatch(groups, MakeGroup(msg.code), s, o, msg.topic), false)
    ensures (set d | d in toEvents + toGroups :: d.session) == re + rg
  {
    forall s ensures s in (set d | d in toEvents + toGroups :: d.session) <==> s in re + rg {
      SessionsOfOneTable(events, msg, msg.code, toEvents, s);
      SessionsOfOneTable(groups, msg, MakeGroup(msg.code), toGroups, s);
      if s in re + rg {
        var d :| d in toEvents + toGroups && d.session == s;
      }
    }
  }

  lemma SessionsOfOneTable(t: Table, msg: Message, event: Code, sent: seq<Delivery>, s: Session)
    requires SentOnce(t, msg, event, sent)
    ensures (exists d :: d in sent && d.session == s) <==>
            exists o :: Wants(TableMatch(t, event, s, o, msg.topic), msg.manual)
  {
    if o :| Wants(TableMatch(t, event, s, o, msg.topic), msg.manual) {
      assert Delivery(s, o, msg.code, msg.topic, msg.payload) in sent;
    }
  }
}
