/**
 Event and group codes (public/common_base/common_defs.h). A code is a signed
 32-bit number; its low 24 bits are the event, its high 8 bits the group. A code
 whose low 24 bits are all ones names a whole group. Dafny's `%` and `/` by a
 positive constant agree with masking and arithmetic shift on two's complement.
 */
module EventCodes {
  type Code = int

  const EVENT_SPAN := 0x100_0000

  predicate IsGroup(code: Code) {
    code % EVENT_SPAN == EVENT_SPAN - 1
  }

  function GroupOf(code: Code): int {
    code / EVENT_SPAN
  }

  /** The group code an event belongs to. */
  function MakeGroup(code: Code): (group: Code)
    ensures IsGroup(group) && GroupOf(group) == GroupOf(code)
  {
    code - code % EVENT_SPAN + (EVENT_SPAN - 1)
  }

  /** A group code is determined by its group: the group table has one entry per group. */
  lemma GroupCodeUnique(a: Code, b: Code)
    requires IsGroup(a) && IsGroup(b)
    ensures GroupOf(a) == GroupOf(b) <==> a == b
    ensures MakeGroup(a) == a
  {
    assert a == GroupOf(a) * EVENT_SPAN + (EVENT_SPAN - 1);
    assert b == GroupOf(b) * EVENT_SPAN + (EVENT_SPAN - 1);
  }

  // ---------------------------------------------------------------------- as bits

  /** Bit `i` of a two's complement number of any width. */
  function Bit(n: int, i: nat): int
    decreases i
  {
    if i == 0 then n % 2 else Bit(n / 2, i - 1)
  }

  function Power(n: nat): nat {
    if n == 0 then 1 else 2 * Power(n - 1)
  }

  /** Filling up to the next multiple of 2^n, less one, sets the low `n` bits and keeps the others. */
  lemma {:induction false} OrLow(c: int, n: nat, i: nat)
    ensures Power(n) > 0 && Bit(c - c % Power(n) + (Power(n) - 1), i) == if i < n then 1 else Bit(c, i)
    decreases n
  {
    if n > 0 {
      OrLow(c / 2, n - 1, if i == 0 then 0 else i - 1);
      var p := Power(n - 1);
      HalfModulus(c, p);
      HalfOfFilled(c, c % Power(n), c / 2 % p, p);
    }
  }

  lemma HalfOfFilled(c: int, m: int, r: int, p: int)
    requires m == 2 * r + c % 2
    ensures var x := c - m + (2 * p - 1); x % 2 == 1 && x / 2 == c / 2 - r + (p - 1)
  {
  }

  lemma HalfModulus(c: int, p: nat)
    requires p > 0
    ensures c % (2 * p) == 2 * (c / 2 % p) + c % 2
  {
    var a := c / 2;
    var q, r := a / p, 2 * (a % p) + c % 2;
    assert c == (2 * p) * q + r by {
      assert a == p * q + a % p;
      assert 2 * (p * q) == (2 * p) * q;
    }
    Remainder(c, 2 * p, q, r);
  }

  lemma Remainder(c: int, m: nat, q: int, r: int)
    requires m > 0 && c == m * q + r && 0 <= r < m
    ensures c % m == r
  {
    var d := q - c / m;
    MultiplyOut(m, c / m, d);
    assert m * d == c % m - r;
    if d > 0 {
      MultiplyOut(m, 1, d - 1);
    } else if d < 0 {
      MultiplyOut(m, -1, d + 1);
    }
  }

  lemma MultiplyOut(m: nat, a: int, b: int)
    ensures m * (a + b) == m * a + m * b
    ensures b >= 0 ==> m * b >= 0
    ensures b <= 0 ==> m * b <= 0
  {
  }

  predicate Ones(c: int, n: nat) {
    forall i :: 0 <= i < n ==> Bit(c, i) == 1
  }

  lemma OnesStep(c: int, n: nat)
    requires n > 0
    ensures Ones(c, n) <==> c % 2 == 1 && Ones(c / 2, n - 1)
  {
    assert Bit(c, 0) == c % 2;
    if Ones(c, n) {
      forall i | 0 <= i < n - 1 ensures Bit(c / 2, i) == 1 {
        assert Bit(c, i + 1) == 1;
      }
    }
    if c % 2 == 1 && Ones(c / 2, n - 1) {
      forall i | 0 <= i < n ensures Bit(c, i) == 1 {
        assert i > 0 ==> Bit(c / 2, i - 1) == 1;
      }
    }
  }

  lemma {:induction false} LowOnes(c: int, n: nat)
    ensures Power(n) > 0 && (c % Power(n) == Power(n) - 1 <==> Ones(c, n))
    decreases n
  {
    if n > 0 {
      hide Ones;
      LowOnes(c / 2, n - 1);
      OnesStep(c, n);
      HalfModulus(c, Power(n - 1));
    }
  }

  lemma Span()
    ensures Power(24) == 0x100_0000 == EVENT_SPAN
  {
    assert Power(6) == 64;
    assert Power(12) == 64 * Power(6);
    assert Power(18) == 64 * Power(12);
    assert Power(24) == 64 * Power(18);
  }

  /** The macros by their bits: fdbMakeGroup sets the low 24 bits and keeps the rest, fdbIsGroup tests that they are all set. */
  lemma GroupBits(code: Code)
    ensures forall i: nat :: Bit(MakeGroup(code), i) == if i < 24 then 1 else Bit(code, i)
    ensures IsGroup(code) <==> Ones(code, 24)
  {
    Span();
    hide Power, Bit;
    forall i: nat ensures Bit(MakeGroup(code), i) == if i < 24 then 1 else Bit(code, i) {
      OrLow(code, 24, i);
    }
    LowOnes(code, 24);
  }
}

/**
 The four-level subscription tables of CFdbBaseObject, and the flat relation
 (code, session, object, filter) -> type that they index.
 */
module Subscriptions {
  import opened Common
  import opened EventCodes

  datatype SubscribeType = Normal | OnRequest

  type Session = int
  type ObjectId = int

  type FilterTable = map<string, SubscribeType>
  type ObjectTable = map<ObjectId, FilterTable>
  type SessionTable = map<Session, ObjectTable>
  type Table = map<Code, SessionTable>

  // ---------------------------------------------------------------- flat view

  datatype Key = Key(code: Code, session: Session, obj: ObjectId, filter: string)

  type Flat = map<Key, SubscribeType>

  predicate Has(t: Table, k: Key) {
    && k.code in t
    && k.session in t[k.code]
    && k.obj in t[k.code][k.session]
    && k.filter in t[k.code][k.session][k.obj]
  }

  /** The entry of a nested table at a key. */
  function At(t: Table, k: Key): Option<SubscribeType> {
    if Has(t, k) then Some(t[k.code][k.session][k.obj][k.filter]) else None
  }

  function FlatAt(m: Flat, k: Key): Option<SubscribeType> {
    if k in m then Some(m[k]) else None
  }

  ghost function Keys(t: Table): set<Key> {
    set c, s, o, f | c in t && s in t[c] && o in t[c][s] && f in t[c][s][o] :: Key(c, s, o, f)
  }

  lemma KeysHas(t: Table, k: Key)
    ensures k in Keys(t) <==> Has(t, k)
  {
  }

  predicate NoEmptyFilters(objects: ObjectTable) {
    objects != map[] && forall o :: o in objects ==> objects[o] != map[]
  }

  predicate NoEmptyObjects(sessions: SessionTable) {
    sessions != map[] && forall s :: s in sessions ==> NoEmptyFilters(sessions[s])
  }

  /** No inner map is ever left empty. */
  predicate NoEmpty(t: Table) {
    forall c :: c in t ==> NoEmptyObjects(t[c])
  }

  /** What a removal addresses: one object's filter (or all its filters), a session, an object. */
  datatype Selector =
    | Subscription(session: Session, code: Code, obj: ObjectId, filter: Option<string>)
    | OfSession(s: Session)
    | OfObject(o: ObjectId)

  predicate Selects(sel: Selector, k: Key) {
    match sel
    case Subscription(session, code, obj, filter) =>
      k.session == session && k.code == code && k.obj == obj && (filter == None || filter == Some(k.filter))
    case OfSession(session) => k.session == session
    case OfObject(obj) => k.obj == obj
  }

  /** The relation without the selected entries. */
  ghost function Without(m: Flat, sel: Selector): Flat {
    map k | k in m && !Selects(sel, k) :: m[k]
  }

  /** `t'` is `t` without the selected entries. */
  ghost predicate Removes(t: Table, sel: Selector, t': Table) {
    forall k :: At(t', k) == if Selects(sel, k) then None else At(t, k)
  }

  // ------------------------------------------------------- operations on one table

  /** subscribe: default-constructs the missing levels, then sets the leaf. */
  method Put(t: Table, k: Key, subscribeType: SubscribeType) returns (t': Table)
    requires NoEmpty(t)
    ensures NoEmpty(t')
    ensures forall q :: At(t', q) == if q == k then Some(subscribeType) else At(t, q)
    ensures t'.Keys == t.Keys + {k.code}
  {
    var sessions: SessionTable := if k.code in t then t[k.code] else map[];
    var objects: ObjectTable := if k.session in sessions then sessions[k.session] else map[];
    var filters: FilterTable := if k.obj in objects then objects[k.obj] else map[];
    filters := filters[k.filter := subscribeType];
    objects := objects[k.obj := filters];
    sessions := sessions[k.session := objects];
    t' := t[k.code := sessions];
    assert NoEmptyObjects(sessions) by {
      assert k.filter in filters && k.obj in objects && k.session in sessions;
    }
    forall q ensures At(t', q) == if q == k then Some(subscribeType) else At(t, q) {
      if q.code == k.code && q.session == k.session {
        assert At(t', q) == if q.obj in objects && q.filter in objects[q.obj] then Some(objects[q.obj][q.filter]) else None;
      }
    }
  }

  /** The object level of unsubscribe. */
  function RemoveFilter(objects: ObjectTable, obj: ObjectId, filter: Option<string>): ObjectTable {
    if obj !in objects then objects
    else if filter == None || objects[obj] - {filter.value} == map[] then objects - {obj}
    else objects[obj := objects[obj] - {filter.value}]
  }

  predicate HasFilter(objects: ObjectTable, obj: ObjectId, filter: string) {
    obj in objects && filter in objects[obj]
  }

  lemma RemoveFilterKeeps(objects: ObjectTable, obj: ObjectId, filter: Option<string>, o: ObjectId, f: string)
    ensures var objects' := RemoveFilter(objects, obj, filter);
            && (HasFilter(objects', o, f) <==>
                HasFilter(objects, o, f) && !(o == obj && (filter == None || filter == Some(f))))
            && (HasFilter(objects', o, f) ==> objects'[o][f] == objects[o][f])
  {
    if HasFilter(objects, o, f) && o == obj && filter.Some? && filter.value != f {
      assert f in objects[obj] - {filter.value};
    }
  }

  /** unsubscribe of one object's filter, or of all its filters when none is given. */
  method Remove(t: Table, session: Session, code: Code, obj: ObjectId, filter: Option<string>) returns (t': Table)
    requires NoEmpty(t)
    ensures NoEmpty(t')
    ensures Removes(t, Subscription(session, code, obj, filter), t')
    ensures t'.Keys <= t.Keys
  {
    t' := t;
    if code in t {
      var sessions := t[code];
      if session in sessions {
        var objects := RemoveFilter(sessions[session], obj, filter);
        sessions := if objects == map[] then sessions - {session} else sessions[session := objects];
        forall k ensures At(t[code := sessions], k) == if Selects(Subscription(session, code, obj, filter), k) then None else At(t, k) {
          RemoveFilterKeeps(t[code][session], obj, filter, k.obj, k.filter);
        }
      }
      t' := if sessions == map[] then t - {code} else t[code := sessions];
      forall k ensures At(t', k) == At(t[code := sessions], k) {
      }
    }
  }

  /** unsubscribeSession: drops a session from every code. */
  method RemoveSession(t: Table, session: Session) returns (t': Table)
    requires NoEmpty(t)
    ensures NoEmpty(t')
    ensures Removes(t, OfSession(session), t')
    ensures t'.Keys <= t.Keys
  {
    t' := t;
    var todo := t.Keys;
    while todo != {}
      invariant todo <= t.Keys && t'.Keys <= t.Keys
      invariant forall c :: c in todo ==> c in t' && t'[c] == t[c]
      invariant forall c :: c in t && c !in todo ==> (c in t' <==> t[c] - {session} != map[])
      invariant forall c :: c in t' && c !in todo ==> t'[c] == t[c] - {session}
    {
      ghost var member := Member(todo);
      var code :| code in todo;
      todo := todo - {code};
      var sessions := t'[code] - {session};
      t' := if sessions == map[] then t' - {code} else t'[code := sessions];
    }
    forall k ensures At(t', k) == if k.session == session then None else At(t, k) {
      if k.code in t && k.session in t[k.code] && k.session != session {
        assert k.session in t[k.code] - {session};
      }
    }
  }

  method RemoveObjectFromSessions(sessions: SessionTable, obj: ObjectId) returns (sessions': SessionTable)
    ensures SessionsWithout(sessions, obj, sessions')
  {
    sessions' := sessions;
    var todo := sessions.Keys;
    while todo != {}
      invariant todo <= sessions.Keys && sessions'.Keys <= sessions.Keys
      invariant forall s :: s in todo ==> s in sessions' && sessions'[s] == sessions[s]
      invariant forall s :: s in sessions && s !in todo ==> (s in sessions' <==> sessions[s] - {obj} != map[])
      invariant forall s :: s in sessions' && s !in todo ==> sessions'[s] == sessions[s] - {obj}
    {
      ghost var member := Member(todo);
      var s :| s in todo;
      todo := todo - {s};
      var objects := sessions'[s] - {obj};
      sessions' := if objects == map[] then sessions' - {s} else sessions'[s := objects];
    }
  }

  /** What removing an object leaves of the sessions of one code. */
  ghost predicate SessionsWithout(sessions: SessionTable, obj: ObjectId, sessions': SessionTable) {
    && sessions'.Keys <= sessions.Keys
    && (forall s :: s in sessions ==> (s in sessions' <==> sessions[s] - {obj} != map[]))
    && (forall s :: s in sessions' ==> sessions'[s] == sessions[s] - {obj})
  }

  lemma SessionsWithoutKeeps(sessions: SessionTable, obj: ObjectId, sessions': SessionTable, s: Session, o: ObjectId)
    requires SessionsWithout(sessions, obj, sessions')
    ensures (s in sessions' && o in sessions'[s]) <==> (s in sessions && o in sessions[s] && o != obj)
  {
    if s in sessions && o in sessions[s] && o != obj {
      assert o in sessions[s] - {obj};
    }
  }

  /** What removing an object leaves of the codes already visited. */
  ghost predicate CodesWithout(t: Table, obj: ObjectId, t': Table, todo: set<Code>) {
    && t'.Keys <= t.Keys
    && (forall c :: c in todo ==> c in t && c in t' && t'[c] == t[c])
    && (forall c :: c in t && c !in todo ==> SessionsWithout(t[c], obj, if c in t' then t'[c] else map[]))
    && (forall c :: c in t' && c !in todo ==> t'[c] != map[])
  }

  lemma CodesWithoutRemoves(t: Table, obj: ObjectId, t': Table)
    requires NoEmpty(t) && CodesWithout(t, obj, t', {})
    ensures NoEmpty(t') && Removes(t, OfObject(obj), t')
  {
    forall k ensures At(t', k) == if k.obj == obj then None else At(t, k) {
      if k.code in t {
        SessionsWithoutKeeps(t[k.code], obj, if k.code in t' then t'[k.code] else map[], k.session, k.obj);
      }
    }
  }

  lemma CodesWithoutStep(t: Table, obj: ObjectId, t': Table, todo: set<Code>, code: Code, sessions: SessionTable)
    requires CodesWithout(t, obj, t', todo) && code in todo && SessionsWithout(t[code], obj, sessions)
    ensures sessions == map[] ==> CodesWithout(t, obj, t' - {code}, todo - {code})
    ensures sessions != map[] ==> CodesWithout(t, obj, t'[code := sessions], todo - {code})
  {
  }

  /** unsubscribeObject: drops an object from every session of every code. */
  method RemoveObject(t: Table, obj: ObjectId) returns (t': Table)
    requires NoEmpty(t)
    ensures NoEmpty(t')
    ensures Removes(t, OfObject(obj), t')
    ensures t'.Keys <= t.Keys
  {
    t' := t;
    var todo := t.Keys;
    while todo != {}
      invariant CodesWithout(t, obj, t', todo)
    {
      ghost var member := Member(todo);
      var code :| code in todo;
      var sessions := RemoveObjectFromSessions(t'[code], obj);
      CodesWithoutStep(t, obj, t', todo, code, sessions);
      todo := todo - {code};
      t' := if sessions == map[] then t' - {code} else t'[code := sessions];
    }
    CodesWithoutRemoves(t, obj, t');
  }

  // ------------------------------------------------------------ both tables

  /** Group codes live only in the group table. */
  predicate Separate(events: Table, groups: Table) {
    (forall c :: c in events ==> !IsGroup(c)) && (forall c :: c in groups ==> IsGroup(c))
  }

  function EntryAt(events: Table, groups: Table, k: Key): Option<SubscribeType> {
    if IsGroup(k.code) then At(groups, k) else At(events, k)
  }

  /** The one flat relation that the two tables index. */
  ghost function Flatten(events: Table, groups: Table): Flat {
    map k | k in Keys(events) + Keys(groups) && EntryAt(events, groups, k).Some? :: EntryAt(events, groups, k).value
  }

  lemma FlattenAt(events: Table, groups: Table, k: Key)
    requires Separate(events, groups)
    ensures FlatAt(Flatten(events, groups), k) == EntryAt(events, groups, k)
  {
    KeysHas(events, k);
    KeysHas(groups, k);
  }

  /** A relation is determined by its entries. */
  lemma FlatExtensional(m: Flat, m': Flat)
    requires forall k :: FlatAt(m, k) == FlatAt(m', k)
    ensures m == m'
  {
    forall k ensures k in m <==> k in m' {
      assert FlatAt(m, k) == FlatAt(m', k);
    }
    forall k | k in m ensures m[k] == m'[k] {
      assert FlatAt(m, k) == FlatAt(m', k);
    }
  }

  /** Setting one entry of the nested tables sets that entry of the relation. */
  lemma PutRefines(e: Table, g: Table, e': Table, g': Table, key: Key, subscribeType: SubscribeType)
    requires Separate(e, g) && Separate(e', g')
    requires forall k :: EntryAt(e', g', k) == if k == key then Some(subscribeType) else EntryAt(e, g, k)
    ensures Flatten(e', g') == Flatten(e, g)[key := subscribeType]
  {
    forall k ensures FlatAt(Flatten(e', g'), k) == FlatAt(Flatten(e, g)[key := subscribeType], k) {
      FlattenAt(e, g, k);
      FlattenAt(e', g', k);
    }
    FlatExtensional(Flatten(e', g'), Flatten(e, g)[key := subscribeType]);
  }

  /** Removing entries of the nested tables removes exactly those entries of the relation. */
  lemma RemoveRefines(e: Table, g: Table, e': Table, g': Table, sel: Selector)
    requires Separate(e, g) && Separate(e', g')
    requires forall k :: EntryAt(e', g', k) == if Selects(sel, k) then None else EntryAt(e, g, k)
    ensures Flatten(e', g') == Without(Flatten(e, g), sel)
  {
    forall k ensures FlatAt(Flatten(e', g'), k) == FlatAt(Without(Flatten(e, g), sel), k) {
      FlattenAt(e, g, k);
      FlattenAt(e', g', k);
    }
    FlatExtensional(Flatten(e', g'), Without(Flatten(e, g), sel));
  }

  /** The subscription state of a CFdbBaseObject. */
  class SubscriptionTables {
    var events: Table
    var groups: Table

    ghost predicate Valid()
      reads this
    {
      NoEmpty(events) && NoEmpty(groups) && Separate(events, groups)
    }

    ghost function View(): Flat
      reads this
    {
      Flatten(events, groups)
    }

    constructor ()
      ensures Valid() && View() == map[]
    {
      events, groups := map[], map[];
    }

    method Subscribe(session: Session, code: Code, obj: ObjectId, filter: Option<string>, subscribeType: SubscribeType)
      requires Valid()
      modifies this
      ensures Valid()
      ensures View() == old(View())[Key(code, session, obj, filter.GetOr("")) := subscribeType]
    {
      var key := Key(code, session, obj, filter.GetOr(""));
      if IsGroup(code) {
        groups := Put(groups, key, subscribeType);
      } else {
        events := Put(events, key, subscribeType);
      }
      PutRefines(old(events), old(groups), events, groups, key, subscribeType);
    }

    method Unsubscribe(session: Session, code: Code, obj: ObjectId, filter: Option<string>)
      requires Valid()
      modifies this
      ensures Valid()
      ensures View() == Without(old(View()), Subscription(session, code, obj, filter))
    {
      if IsGroup(code) {
        groups := Remove(groups, session, code, obj, filter);
      } else {
        events := Remove(events, session, code, obj, filter);
      }
      RemoveRefines(old(events), old(groups), events, groups, Subscription(session, code, obj, filter));
    }

    method UnsubscribeSession(session: Session)
      requires Valid()
      modifies this
      ensures Valid()
      ensures View() == Without(old(View()), OfSession(session))
    {
      events := RemoveSession(events, session);
      groups := RemoveSession(groups, session);
      RemoveRefines(old(events), old(groups), events, groups, OfSession(session));
    }

    method UnsubscribeObject(obj: ObjectId)
      requires Valid()
      modifies this
      ensures Valid()
      ensures View() == Without(old(View()), OfObject(obj))
    {
      events := RemoveObject(events, obj);
      groups := RemoveObject(groups, obj);
      RemoveRefines(old(events), old(groups), events, groups, OfObject(obj));
    }
  }
}
