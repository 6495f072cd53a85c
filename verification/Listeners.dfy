/**
 CommonAPI::Event: subscriptions and unsubscriptions are deferred to the next
 notification. The deferred sets stand for a plain table of live listeners.
 */
module Listeners {
  import opened Common

  /** A subscription's callbacks; the error callback may be missing. */
  datatype Listener = Listener(callback: int, hasError: bool)

  /** The hooks that Event calls on itself. */
  datatype Hook = FirstAdded | LastRemoved | ListenerAdded(id: int) | ListenerRemoved(id: int)

  /** subscriptions_, pendingSubscriptions_, pendingUnsubscriptions_ and nextSubscription_. */
  datatype Event = Event(subs: map<int, Listener>, added: map<int, Listener>, removed: set<int>, next: int)

  const NEW_EVENT := Event(map[], map[], {}, 0)

  predicate Valid(e: Event) {
    e.removed <= e.subs.Keys && e.subs.Keys !! e.added.Keys
  }

  /** Who would be called by a notification now. */
  function Live(e: Event): map<int, Listener> {
    (e.subs - e.removed) + e.added
  }

  /** The next identifier, from a 32-bit counter, is not in use. */
  predicate Fresh(e: Event) {
    e.next !in e.subs && e.next !in e.added
  }

  // ------------------------------------------------------------------ operations

  function Subscribe(e: Event, l: Listener): (Event, seq<Hook>) {
    (Enter(e, l), JoinHooks(e.next, |e.added| == 0 && |e.removed| == |e.subs|, e.removed != {}))
  }

  function Enter(e: Event, l: Listener): Event {
    e.(added := e.added[e.next := l], next := if e.next + 1 == UINT32_SPAN then 0 else e.next + 1)
  }

  function JoinHooks(id: int, first: bool, unflushed: bool): (hooks: seq<Hook>)
    ensures FirstAdded in hooks <==> first
    ensures LastRemoved in hooks <==> first && unflushed
    ensures Count(hooks, FirstAdded) == (if first then 1 else 0) && Count(hooks, LastRemoved) == (if first && unflushed then 1 else 0)
    ensures forall i :: Count(hooks, ListenerAdded(i)) == (if i == id then 1 else 0) && Count(hooks, ListenerRemoved(i)) == 0
    ensures hooks != [] && hooks[|hooks| - 1] == ListenerAdded(id)  // after the first-listener hook, which comes after the repeated one
    ensures first && unflushed ==> hooks[0] == LastRemoved
  {
    if !first then [ListenerAdded(id)]
    else if unflushed then [LastRemoved, FirstAdded, ListenerAdded(id)]
    else [FirstAdded, ListenerAdded(id)]
  }

  /** What unsubscribe and a failed notification do to the tables. */
  function Drop(e: Event, id: int): Event {
    if id in e.subs && id in e.removed then e
    else if id in e.subs && id !in e.added then e.(removed := e.removed + {id})
    else e.(added := e.added - {id})
  }

  function Unsubscribe(e: Event, id: int): (Event, seq<Hook>) {
    var e' := Drop(e, id);
    var gone := if id in e.subs then id !in e.removed && id !in e.added else id in e.added;
    var last := (id in e.subs ==> id !in e.removed) && |e'.removed| == |e'.subs| && |e'.added| == 0;
    (e', LeaveHooks(id, gone, last))
  }

  function LeaveHooks(id: int, gone: bool, last: bool): (hooks: seq<Hook>)
    ensures FirstAdded !in hooks
    ensures ListenerRemoved(id) in hooks <==> gone
    ensures LastRemoved in hooks <==> gone && last
    ensures Count(hooks, FirstAdded) == 0 && Count(hooks, LastRemoved) == (if gone && last then 1 else 0)
    ensures forall i :: Count(hooks, ListenerAdded(i)) == 0 && Count(hooks, ListenerRemoved(i)) == (if gone && i == id then 1 else 0)
    ensures gone ==> hooks != [] && hooks[0] == ListenerRemoved(id)
  {
    if !gone then [] else if last then [ListenerRemoved(id), LastRemoved] else [ListenerRemoved(id)]
  }

  /** The start of every notification; an identifier that is still subscribed is not replaced. */
  function Flush(e: Event): Event {
    Event(e.added + (e.subs - e.removed), map[], {}, e.next)
  }

  // ------------------------------------------------- refinement of the live table

  /** The size test for the first listener is the test that nobody is live. */
  lemma NobodyLiveIff(e: Event)
    requires Valid(e)
    ensures |e.added| == 0 && |e.removed| == |e.subs| <==> Live(e) == map[]
  {
    SubsetSize(e.removed, e.subs.Keys);
    assert |e.subs| == |e.subs.Keys|;
    if Live(e) == map[] {
      assert e.added.Keys <= Live(e).Keys && e.subs.Keys - e.removed <= Live(e).Keys;
    }
  }

  /** A flush changes nobody's membership. */
  lemma FlushRefines(e: Event)
    requires Valid(e)
    ensures Valid(Flush(e)) && Live(Flush(e)) == Live(e) && Flush(e).subs == Live(e)
  {
    assert Flush(e).subs == Live(e);
  }

  /** subscribe adds its listener; the first-listener hook fires exactly if nobody was live. */
  lemma SubscribeRefines(e: Event, l: Listener)
    requires Valid(e) && Fresh(e)
    ensures var (e', hooks) := Subscribe(e, l);
            && Valid(e') && e.next !in Live(e) && Live(e') == Live(e)[e.next := l]
            && (FirstAdded in hooks <==> Live(e) == map[])
            && (LastRemoved in hooks <==> Live(e) == map[] && e.removed != {})
  {
    NobodyLiveIff(e);
    EnterRefines(e, l);
    hide Live, Enter, JoinHooks, Valid;
  }

  lemma EnterRefines(e: Event, l: Listener)
    requires Valid(e) && Fresh(e)
    ensures Valid(Enter(e, l)) && e.next !in Live(e) && Live(Enter(e, l)) == Live(e)[e.next := l]
  {
    assert Live(Enter(e, l)) == Live(e)[e.next := l];
  }

  lemma DropRefines(e: Event, id: int)
    requires Valid(e)
    ensures Valid(Drop(e, id)) && Live(Drop(e, id)) == Live(e) - {id}
  {
    assert Live(Drop(e, id)) == Live(e) - {id};
  }

  /** unsubscribe takes its listener away; the last-listener hook fires exactly if that leaves nobody. */
  lemma UnsubscribeRefines(e: Event, id: int)
    requires Valid(e)
    ensures var (e', hooks) := Unsubscribe(e, id);
            && Valid(e') && Live(e') == Live(e) - {id} && FirstAdded !in hooks
            && (ListenerRemoved(id) in hooks <==> id in Live(e))
            && (LastRemoved in hooks <==> id in Live(e) && Live(e) - {id} == map[])
  {
    DropRefines(e, id);
    NobodyLiveIff(Drop(e, id));
    LiveIff(e, id);
    hide Live, Drop, LeaveHooks, Valid;
  }

  lemma LiveIff(e: Event, id: int)
    requires Valid(e)
    ensures id in Live(e) <==> if id in e.subs then id !in e.removed && id !in e.added else id in e.added
  {
  }

  // ------------------------------------------------------------------------- runs

  /** Forget is the silent unsubscription at the end of a failed notification. */
  datatype Op = Join(l: Listener) | Leave(id: int) | Deliver | Forget(id: int)

  function Apply(e: Event, op: Op): (Event, seq<Hook>) {
    match op
    case Join(l) => Subscribe(e, l)
    case Leave(id) => Unsubscribe(e, id)
    case Deliver => (Flush(e), [])
    case Forget(id) => (Drop(e, id), [])
  }

  function Run(ops: seq<Op>): Event {
    if ops == [] then NEW_EVENT else Apply(Run(ops[..|ops| - 1]), ops[|ops| - 1]).0
  }

  function Hooks(ops: seq<Op>): seq<Hook> {
    if ops == [] then []
    else Hooks(ops[..|ops| - 1]) + Apply(Run(ops[..|ops| - 1]), ops[|ops| - 1]).1
  }

  function Joins(ops: seq<Op>): nat {
    if ops == [] then 0 else Joins(ops[..|ops| - 1]) + (if ops[|ops| - 1].Join? then 1 else 0)
  }

  /** The 32-bit counter after so many subscriptions. */
  function Number(n: nat): int {
    n % UINT32_SPAN
  }

  /** The simple form: one table of live listeners, changed at once. */
  function TableStep(t: map<int, Listener>, op: Op, n: int): map<int, Listener> {
    match op
    case Join(l) => t[n := l]
    case Leave(id) => t - {id}
    case Deliver => t
    case Forget(id) => t - {id}
  }

  function Table(ops: seq<Op>): map<int, Listener> {
    if ops == [] then map[] else
    TableStep(Table(ops[..|ops| - 1]), ops[|ops| - 1], Number(Joins(ops[..|ops| - 1])))
  }

  /** Every subscription of the run finds a number that is not in use. */
  predicate AllFresh(ops: seq<Op>) {
    ops == [] || (AllFresh(ops[..|ops| - 1]) && (ops[|ops| - 1].Join? ==> Fresh(Run(ops[..|ops| - 1]))))
  }

  lemma NumberNext(n: nat)
    ensures Number(n + 1) == if Number(n) + 1 == UINT32_SPAN then 0 else Number(n) + 1
    ensures n < UINT32_SPAN ==> Number(n) == n
  {
  }

  lemma ApplyNext(e: Event, op: Op)
    ensures Apply(e, op).0.next == if !op.Join? then e.next else if e.next + 1 == UINT32_SPAN then 0 else e.next + 1
  {
    hide JoinHooks, LeaveHooks;
  }

  /** In every run the next number is the count of subscriptions, modulo 2^32. */
  lemma {:induction false} NumbersCount(ops: seq<Op>)
    ensures Run(ops).next == Number(Joins(ops))
  {
    hide Apply, Number;
    if ops == [] {
      NumberNext(0);
    } else {
      var init := ops[..|ops| - 1];
      NumbersCount(init);
      NumberNext(Joins(init));
      ApplyNext(Run(init), ops[|ops| - 1]);
    }
  }

  lemma StepRefines(e: Event, op: Op)
    requires Valid(e) && (op.Join? ==> Fresh(e))
    ensures Valid(Apply(e, op).0) && Live(Apply(e, op).0) == TableStep(Live(e), op, e.next)
  {
    hide Live, Valid, Drop, Flush, Enter, Fresh, JoinHooks, LeaveHooks;
    match op
    case Join(l) => SubscribeRefines(e, l);
    case Leave(id) => UnsubscribeRefines(e, id);
    case Deliver => FlushRefines(e);
    case Forget(id) => DropRefines(e, id);
  }

  /** In every run whose subscriptions find fresh numbers the deferred sets refine the plain table. */
  lemma {:induction false} RunsRefine(ops: seq<Op>)
    requires AllFresh(ops)
    ensures Valid(Run(ops)) && Live(Run(ops)) == Table(ops)
  {
    if ops != [] {
      var init, op := ops[..|ops| - 1], ops[|ops| - 1];
      RunsRefine(init);
      NumbersCount(init);
      hide Live, Valid, Apply, TableStep, Fresh;
      StepRefines(Run(init), op);
    }
  }

  function Used(e: Event): set<int> {
    e.subs.Keys + e.added.Keys
  }

  lemma ApplyUses(e: Event, op: Op)
    ensures Used(Apply(e, op).0) <= Used(e) + if op.Join? then {e.next} else {}
  {
    hide JoinHooks, LeaveHooks;
  }

  /** So it is in every run with at most 2^32 subscriptions. */
  lemma {:induction false} FewJoinsAreFresh(ops: seq<Op>)
    requires Joins(ops) <= UINT32_SPAN
    ensures AllFresh(ops) && forall id :: id in Used(Run(ops)) ==> 0 <= id < Joins(ops)
  {
    if ops != [] {
      var init, op := ops[..|ops| - 1], ops[|ops| - 1];
      FewJoinsAreFresh(init);
      NumbersCount(init);
      NumberNext(Joins(init));
      ApplyUses(Run(init), op);
      var e := Run(init);
      assert e.next in e.subs || e.next in e.added ==> e.next in Used(e);
      hide Apply, Used, Number;
    }
  }

  /**
   A subscription behaves as one, that is, its number is not live before, it is live after
   the next flush and it can be taken back, exactly if its number is fresh.
   */
  lemma JoinWorksIff(e: Event, l: Listener)
    requires Valid(e)
    ensures Fresh(e) <==>
            && e.next !in Live(e)
            && Live(Flush(Enter(e, l))) == Live(e)[e.next := l]
            && Live(Drop(Enter(e, l), e.next)) == Live(e)
  {
    if Fresh(e) {
      EnterRefines(e, l);
      FlushRefines(Enter(e, l));
      DropRefines(Enter(e, l), e.next);
      assert Live(e)[e.next := l] - {e.next} == Live(e);
    } else {
      StaleNumber(e, l);
    }
  }

  /**
   With a number that is in use, a listener waiting to be added under it is replaced; or
   the new one is dropped by the next flush; or, if the old one is about to be removed, the
   new one cannot be taken back before that flush.
   */
  lemma StaleNumber(e: Event, l: Listener)
    requires Valid(e) && !Fresh(e)
    ensures e.next in e.added ==> e.next in Live(e) && Live(Enter(e, l)) == Live(e)[e.next := l]
    ensures e.next in e.subs && e.next !in e.removed ==> e.next in Live(e) && Live(Flush(Enter(e, l))) == Live(e)
    ensures e.next in e.removed ==> e.next !in Live(e) && e.next in Live(Drop(Enter(e, l), e.next))
  {
    assert e.next in e.subs && e.next !in e.removed ==> Live(Flush(Enter(e, l))) == Live(e);
    assert e.next in e.added ==> Live(Enter(e, l)) == Live(e)[e.next := l];
  }

  // ------------------------------------------------ first and last, over whole runs

  function Count(hooks: seq<Hook>, h: Hook): nat {
    multiset(hooks)[h]
  }

  /** Subscriptions that found nobody live while removals were still deferred. */
  function Repeated(ops: seq<Op>): nat {
    if ops == [] then 0 else
    var e := Run(ops[..|ops| - 1]);
    Repeated(ops[..|ops| - 1]) + (if ops[|ops| - 1].Join? && Live(e) == map[] && e.removed != {} then 1 else 0)
  }

  /** Failed notifications that took the last listener away. */
  function Silent(ops: seq<Op>): nat {
    if ops == [] then 0 else
    var e, op := Run(ops[..|ops| - 1]), ops[|ops| - 1];
    Silent(ops[..|ops| - 1]) + (if op.Forget? && op.id in Live(e) && Live(e) - {op.id} == map[] then 1 else 0)
  }

  function Occupied(e: Event): nat {
    if Live(e) == map[] then 0 else 1
  }

  lemma JoinBalance(e: Event, l: Listener)
    requires Valid(e) && Fresh(e)
    ensures var (e', hooks) := Subscribe(e, l);
            Count(hooks, FirstAdded) + (if Live(e) == map[] && e.removed != {} then 1 else 0) + Occupied(e)
            == Count(hooks, LastRemoved) + Occupied(e')
  {
    NobodyLiveIff(e);
    EnterRefines(e, l);
    assert e.next in Live(Enter(e, l));
    hide Live, Valid, Enter, JoinHooks, Count;
  }

  lemma LeaveBalance(e: Event, id: int)
    requires Valid(e)
    ensures var (e', hooks) := Unsubscribe(e, id);
            Count(hooks, FirstAdded) == 0 && Occupied(e) == Count(hooks, LastRemoved) + Occupied(e')
  {
    hide Live, Valid, Unsubscribe, Count;
    UnsubscribeRefines(e, id);
    LeaveCounts(e, id);
    Minus(Live(e), id);
  }

  lemma Minus(m: map<int, Listener>, id: int)
    ensures id in m ==> m != map[]
    ensures id !in m ==> m - {id} == m
  {
  }

  lemma LeaveCounts(e: Event, id: int)
    ensures var hooks := Unsubscribe(e, id).1;
            Count(hooks, FirstAdded) == 0 && Count(hooks, LastRemoved) == (if LastRemoved in hooks then 1 else 0)
  {
    hide Drop;
  }

  lemma StepBalance(e: Event, op: Op)
    requires Valid(e) && (op.Join? ==> Fresh(e))
    ensures var (e', hooks) := Apply(e, op);
            Count(hooks, FirstAdded) + (if op.Join? && Live(e) == map[] && e.removed != {} then 1 else 0) + Occupied(e)
            == Count(hooks, LastRemoved) + (if op.Forget? && op.id in Live(e) && Live(e) - {op.id} == map[] then 1 else 0) + Occupied(e')
  {
    hide Live, Valid, Fresh, Drop, Flush, Subscribe, Unsubscribe;
    match op
    case Join(l) => JoinBalance(e, l);
    case Leave(id) => LeaveBalance(e, id);
    case Deliver => FlushRefines(e);
    case Forget(id) =>
      DropRefines(e, id);
      Minus(Live(e), id);
  }

  /**
   Over every such run: the first-listener hook fires as often as the last-listener hook, plus
   one while somebody is live, but for the repeated and the silent departures.
   */
  lemma {:induction false} HookBalance(ops: seq<Op>)
    requires AllFresh(ops)
    ensures Count(Hooks(ops), FirstAdded) + Repeated(ops) == Count(Hooks(ops), LastRemoved) + Silent(ops) + Occupied(Run(ops))
  {
    if ops != [] {
      var init, op := ops[..|ops| - 1], ops[|ops| - 1];
      HookBalance(init);
      RunsRefine(init);
      hide Live, Valid, Apply, Fresh, Occupied;
      StepBalance(Run(init), op);
      assert Count(Hooks(ops), FirstAdded) == Count(Hooks(init), FirstAdded) + Count(Apply(Run(init), op).1, FirstAdded);
      assert Count(Hooks(ops), LastRemoved) == Count(Hooks(init), LastRemoved) + Count(Apply(Run(init), op).1, LastRemoved);
    }
  }

  /** Failed notifications that took this listener away. */
  function SilentOf(ops: seq<Op>, id: int): nat {
    if ops == [] then 0
    else SilentOf(ops[..|ops| - 1], id) + (if ops[|ops| - 1] == Forget(id) && id in Live(Run(ops[..|ops| - 1])) then 1 else 0)
  }

  lemma StepListener(e: Event, op: Op, id: int)
    requires Valid(e) && (op.Join? ==> Fresh(e))
    ensures var (e', hooks) := Apply(e, op);
            Count(hooks, ListenerAdded(id)) + (if id in Live(e) then 1 else 0) ==
            Count(hooks, ListenerRemoved(id)) + (if op == Forget(id) && id in Live(e) then 1 else 0) + (if id in Live(e') then 1 else 0)
  {
    hide Live, Valid, Fresh, Drop, Flush, Enter, JoinHooks, LeaveHooks;
    match op
    case Join(l) => EnterRefines(e, l);
    case Leave(i) =>
      UnsubscribeRefines(e, i);
      LiveIff(e, i);
    case Deliver => FlushRefines(e);
    case Forget(i) => DropRefines(e, i);
  }

  /**
   Over every such run, per listener: it was reported as added as often as it was reported as
   removed or dropped by a failed notification, and once more while it is live.
   */
  lemma {:induction false} ListenerBalance(ops: seq<Op>, id: int)
    requires AllFresh(ops)
    ensures Count(Hooks(ops), ListenerAdded(id)) ==
            Count(Hooks(ops), ListenerRemoved(id)) + SilentOf(ops, id) + (if id in Table(ops) then 1 else 0)
  {
    RunsRefine(ops);
    if ops != [] {
      var init, op := ops[..|ops| - 1], ops[|ops| - 1];
      ListenerBalance(init, id);
      RunsRefine(init);
      hide Live, Valid, Apply, Fresh, Table;
      StepListener(Run(init), op, id);
      assert Count(Hooks(ops), ListenerAdded(id)) == Count(Hooks(init), ListenerAdded(id)) + Count(Apply(Run(init), op).1, ListenerAdded(id));
      assert Count(Hooks(ops), ListenerRemoved(id)) == Count(Hooks(init), ListenerRemoved(id)) + Count(Apply(Run(init), op).1, ListenerRemoved(id));
    }
  }

  /** A last listener that leaves is reported, and reported again by a subscription before the next notification. */
  lemma LastFiresTwice(e: Event, id: int, l: Listener)
    requires Valid(e) && Fresh(e) && id in e.subs && id in Live(e) && Live(e) - {id} == map[]
    ensures var (e1, hooks1) := Unsubscribe(e, id);
            var (e2, hooks2) := Subscribe(e1, l);
            LastRemoved in hooks1 && LastRemoved in hooks2 && FirstAdded in hooks2
  {
    UnsubscribeRefines(e, id);
    LiveIff(e, id);
    var e1 := Drop(e, id);
    assert id in e1.removed && Fresh(e1);
    SubscribeRefines(e1, l);
  }

  /** A last listener dropped by a failed notification and then flushed is never reported. */
  lemma LastNeverFires(e: Event, id: int, l: Listener)
    requires Valid(e) && id in Live(e) && Live(e) - {id} == map[] && e.next != id && Fresh(e)
    ensures var e1 := Flush(Drop(e, id));
            var (e2, hooks) := Subscribe(e1, l);
            Live(e1) == map[] && FirstAdded in hooks && LastRemoved !in hooks
  {
    DropRefines(e, id);
    FlushRefines(Drop(e, id));
    SubscribeRefines(Flush(Drop(e, id)), l);
  }

  // ------------------------------------------------------------------- the object

  /** Callbacks may subscribe and unsubscribe. */
  predicate MayDo(op: Op) {
    op.Join? || op.Leave?
  }

  function ApplyAll(e: Event, ops: seq<Op>): Event {
    if ops == [] then e else Apply(ApplyAll(e, ops[..|ops| - 1]), ops[|ops| - 1]).0
  }

  function ActsOf(called: seq<int>, callbacks: int -> seq<Op>): seq<Op> {
    if called == [] then [] else ActsOf(called[..|called| - 1], callbacks) + callbacks(called[|called| - 1])
  }

  predicate Ascending(s: seq<int>) {
    forall i, j :: 0 <= i < j < |s| ==> s[i] < s[j]
  }

  lemma {:induction false} ApplyAllConcat(e: Event, a: seq<Op>, b: seq<Op>)
    ensures ApplyAll(e, a + b) == ApplyAll(ApplyAll(e, a), b)
  {
    hide Apply;
    if b == [] {
      assert a + b == a;
    } else {
      ApplyAllConcat(e, a, b[..|b| - 1]);
      assert (a + b)[..|a + b| - 1] == a + b[..|b| - 1];
    }
  }

  lemma ApplyNone(e: Event)
    ensures ApplyAll(e, []) == e
  {
  }

  lemma ApplyAllNext(e: Event, ops: seq<Op>, i: nat)
    requires i < |ops|
    ensures ApplyAll(e, ops[..i + 1]) == Apply(ApplyAll(e, ops[..i]), ops[i]).0
  {
    assert ops[..i + 1][..i] == ops[..i];
  }

  lemma ActsNext(e: Event, called: seq<int>, id: int, callbacks: int -> seq<Op>)
    ensures ApplyAll(e, ActsOf(called + [id], callbacks)) == ApplyAll(ApplyAll(e, ActsOf(called, callbacks)), callbacks(id))
  {
    assert (called + [id])[..|called|] == called;
    ApplyAllConcat(e, ActsOf(called, callbacks), callbacks(id));
  }

  /** `called` lists the keys that are not in `todo`, ascending, all below those in `todo`. */
  ghost predicate Visited(called: seq<int>, todo: set<int>, keys: set<int>) {
    && todo <= keys && (forall id :: id in called <==> id in keys - todo)
    && Ascending(called) && (forall i, x :: 0 <= i < |called| && x in todo ==> called[i] < x)
  }

  lemma VisitedNone(keys: set<int>)
    ensures Visited([], keys, keys)
  {
  }

  lemma VisitedAll(called: seq<int>, keys: set<int>)
    requires Visited(called, {}, keys)
    ensures Ascending(called) && forall id :: id in called <==> id in keys
  {
  }

  lemma ActsNone(e: Event, callbacks: int -> seq<Op>)
    ensures ApplyAll(e, ActsOf([], callbacks)) == e
  {
  }

  lemma VisitNext(called: seq<int>, todo: set<int>, keys: set<int>, id: int)
    requires Visited(called, todo, keys) && id in todo && forall x :: x in todo ==> id <= x
    ensures Visited(called + [id], todo - {id}, keys)
  {
  }

  lemma SameMap(m: map<int, Listener>, m': map<int, Listener>)
    requires m.Keys == m'.Keys && forall id :: id in m.Keys ==> m[id] == m'[id]
    ensures m == m'
  {
    forall id | id in m ensures id in m' && m[id] == m'[id] {
      assert id in m.Keys;
    }
  }

  /** All of `added` but `todo` has been put into `kept`, replacing nothing. */
  ghost predicate Inserted(m: map<int, Listener>, kept: map<int, Listener>, added: map<int, Listener>, todo: set<int>) {
    && todo <= added.Keys && m.Keys == kept.Keys + (added.Keys - todo)
    && forall id :: id in m.Keys ==> m[id] == if id in kept then kept[id] else added[id]
  }

  lemma InsertedNone(kept: map<int, Listener>, added: map<int, Listener>)
    ensures Inserted(kept, kept, added, added.Keys)
  {
  }

  lemma InsertNext(m: map<int, Listener>, kept: map<int, Listener>, added: map<int, Listener>, todo: set<int>, id: int)
    requires Inserted(m, kept, added, todo) && id in todo
    ensures id in added && Inserted(if id in m then m else m[id := added[id]], kept, added, todo - {id})
  {
  }

  lemma InsertedAll(m: map<int, Listener>, kept: map<int, Listener>, added: map<int, Listener>)
    requires Inserted(m, kept, added, {})
    ensures m == added + kept
  {
    SameMap(m, added + kept);
  }

  lemma LeastExists(s: set<int>) returns (least: int)
    requires s != {}
    ensures least in s && forall x :: x in s ==> least <= x
    decreases |s|
  {
    var member := Member(s);
    least := member;
    if s != {member} {
      var other := LeastExists(s - {member});
      assert forall x :: x in s ==> x == member || x in s - {member};
      if other < member {
        least := other;
      }
    }
  }

  class EventSource {
    var subs: map<int, Listener>
    var added: map<int, Listener>
    var removed: set<int>
    var next: int

    function View(): Event
      reads this
    {
      Event(subs, added, removed, next)
    }

    constructor ()
      ensures View() == NEW_EVENT && Valid(View())
    {
      subs, added, removed, next := map[], map[], {}, 0;
    }

    method DoSubscribe(l: Listener) returns (id: int, hooks: seq<Hook>)
      modifies this`added, this`next
      ensures id == old(next) && (View(), hooks) == Subscribe(old(View()), l)
    {
      id := next;
      next := if next + 1 == UINT32_SPAN then 0 else next + 1;
      var first := |added| == 0 && |removed| == |subs|;
      added := added[id := l];
      hooks := [];
      if first {
        if removed != {} {
          hooks := [LastRemoved];
        }
        hooks := hooks + [FirstAdded];
      }
      hooks := hooks + [ListenerAdded(id)];
      assert hooks == JoinHooks(id, first, removed != {});
    }

    method DoUnsubscribe(id: int) returns (hooks: seq<Hook>)
      modifies this`added, this`removed
      ensures (View(), hooks) == Unsubscribe(old(View()), id)
    {
      var last, gone := false, false;
      if id in subs {
        if id !in removed {
          if id !in added {
            removed := removed + {id};
            gone := true;
          } else {
            added := added - {id};
          }
          last := |removed| == |subs|;
        }
      } else if id in added {
        added := added - {id};
        last := |removed| == |subs|;
        gone := true;
      }
      assert View() == Drop(old(View()), id) by {
        assert View().added == Drop(old(View()), id).added;
      }
      hide Drop;
      last := last && |added| == 0;
      hooks := [];
      if gone {
        hooks := [ListenerRemoved(id)];
        if last {
          hooks := hooks + [LastRemoved];
        }
      }
      assert hooks == LeaveHooks(id, gone, last);
    }

    method FlushPending()
      modifies this`subs, this`added, this`removed
      ensures View() == Flush(old(View()))
    {
      EraseRemoved();
      InsertAdded();
    }

    method EraseRemoved()
      modifies this`subs, this`removed
      ensures subs == old(subs) - old(removed) && removed == {}
    {
      var todo := removed;
      while todo != {}
        invariant todo <= removed == old(removed) && subs.Keys == old(subs).Keys - (removed - todo)
        invariant forall id :: id in subs ==> subs[id] == old(subs)[id]
        decreases |todo|
      {
        ghost var member := Member(todo);
        var id :| id in todo;
        subs := subs - {id};
        todo := todo - {id};
      }
      SameMap(subs, old(subs) - old(removed));
      removed := {};
    }

    method InsertAdded()
      modifies this`subs, this`added
      ensures subs == old(added) + old(subs) && added == map[]
    {
      hide Inserted;
      var todo := added.Keys;
      InsertedNone(subs, added);
      while todo != {}
        invariant added == old(added) && Inserted(subs, old(subs), added, todo)
        decreases |todo|
      {
        ghost var member := Member(todo);
        var id :| id in todo;
        InsertNext(subs, old(subs), added, todo, id);
        if id !in subs {
          subs := subs[id := added[id]];
        }
        todo := todo - {id};
      }
      InsertedAll(subs, old(subs), added);
      added := map[];
    }

    /** One thing a callback does. */
    method Act(op: Op)
      requires MayDo(op)
      modifies this`added, this`removed, this`next
      ensures View() == Apply(old(View()), op).0
    {
      hide Subscribe, Unsubscribe;
      if op.Join? {
        var id, hooks := DoSubscribe(op.l);
      } else {
        var hooks := DoUnsubscribe(op.id);
      }
    }

    /** What one callback does. */
    method Callback(ops: seq<Op>)
      requires forall op :: op in ops ==> MayDo(op)
      modifies this`added, this`removed, this`next
      ensures View() == ApplyAll(old(View()), ops)
    {
      hide ApplyAll, Apply, MayDo;
      ApplyNone(View());
      var i := 0;
      while i < |ops|
        invariant 0 <= i <= |ops| && View() == ApplyAll(old(View()), ops[..i])
      {
        ApplyAllNext(old(View()), ops, i);
        var op := ops[i];
        assert op in ops;
        Act(op);
        i := i + 1;
      }
      assert ops[..i] == ops;
    }

    /**
     notifyListeners: every listener that was live is called exactly once, in the order
     of subscription numbers, whatever the callbacks subscribe or unsubscribe meanwhile.
     */
    method NotifyListeners(callbacks: int -> seq<Op>) returns (called: seq<int>)
      requires forall id, op :: op in callbacks(id) ==> MayDo(op)
      modifies this
      ensures Ascending(called) && (forall id :: id in called <==> id in Flush(old(View())).subs)
      ensures Valid(old(View())) ==> forall id :: id in called <==> id in Live(old(View()))
      ensures subs == Flush(old(View())).subs && View() == ApplyAll(Flush(old(View())), ActsOf(called, callbacks))
    {
      if Valid(View()) {
        FlushRefines(View());
      }
      FlushPending();
      called := NotifyAll(callbacks);
    }

    /** The loop over the subscriptions. */
    method NotifyAll(callbacks: int -> seq<Op>) returns (called: seq<int>)
      requires forall id, op :: op in callbacks(id) ==> MayDo(op)
      modifies this`added, this`removed, this`next
      ensures Ascending(called) && (forall id :: id in called <==> id in subs)
      ensures View() == ApplyAll(old(View()), ActsOf(called, callbacks))
    {
      hide ApplyAll, ActsOf, Visited, MayDo, Ascending;
      called := [];
      var todo := subs.Keys;
      VisitedNone(todo);
      ActsNone(View(), callbacks);
      while todo != {}
        invariant Visited(called, todo, subs.Keys)
        invariant View() == ApplyAll(old(View()), ActsOf(called, callbacks))
        decreases |todo|
      {
        ghost var least := LeastExists(todo);
        var id :| id in todo && forall x :: x in todo ==> id <= x;
        ActsNext(old(View()), called, id, callbacks);
        VisitNext(called, todo, subs.Keys, id);
        Callback(callbacks(id));
        called := called + [id];
        todo := todo - {id};
      }
      VisitedAll(called, subs.Keys);
    }

    /** notifySpecificError: after a failure the listener is dropped, without a hook. */
    method NotifySpecificError(id: int, failed: bool, callback: seq<Op>) returns (called: bool)
      requires forall op :: op in callback ==> MayDo(op)
      modifies this
      ensures var e := Flush(old(View()));
              && (called <==> id in e.subs && e.subs[id].hasError)
              && var e1 := ApplyAll(e, if called then callback else []);
                 View() == if failed then Drop(e1, id) else e1
    {
      FlushPending();
      called := id in subs && subs[id].hasError;
      if called {
        Callback(callback);
      }
      if failed {
        ghost var e := View();
        if id in subs {
          if id !in removed {
            if id in added {
              added := added - {id};
            } else {
              removed := removed + {id};
            }
          }
        } else {
          added := added - {id};
        }
        assert View() == Drop(e, id);
      }
    }
  }
}
