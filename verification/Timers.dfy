/** The timers of CBaseEventLoop: a working list sorted by expiry, and the timer pass. */
module Timers {
  import opened Common
  import opened Lists

  /** CSysLoopTimer; interval is a signed 32-bit number of milliseconds. */
  datatype Timer = Timer(interval: int, repeats: bool, enabled: bool, expiration: int)

  /** mTimerList, mTimerWorkingList and the timers they point to. */
  datatype Timers = Timers(all: seq<int>, working: seq<int>, timer: map<int, Timer>)

  const MAX_INT32 := 0x7fff_ffff

  // ------------------------------------------------------------------- invariant

  predicate Known(w: seq<int>, timer: map<int, Timer>) {
    forall i :: 0 <= i < |w| ==> w[i] in timer
  }

  predicate Sorted(w: seq<int>, timer: map<int, Timer>)
    requires Known(w, timer)
  {
    forall i, j :: 0 <= i < j < |w| ==> timer[w[i]].expiration <= timer[w[j]].expiration
  }

  /**
   The working list is sorted, free of duplicates and exactly the enabled timers. No
   expiry lies further ahead of `clock`, the last time read, than an int32 can hold.
   */
  predicate Valid(s: Timers, clock: int) {
    && 0 <= clock && Known(s.all, s.timer) && Known(s.working, s.timer)
    && Distinct(s.all) && Distinct(s.working) && Sorted(s.working, s.timer)
    && (forall t :: t in s.timer ==> (s.timer[t].enabled <==> t in s.working) && s.timer[t].interval <= MAX_INT32)
    && (forall t :: t in s.working ==> t in s.all && s.timer[t].expiration <= clock + MAX_INT32)
  }

  // ------------------------------------------------------------------ operations

  /** Behind every timer that expires no later. */
  function Insert(w: seq<int>, timer: map<int, Timer>, t: int): seq<int>
    requires Known(w, timer) && t in timer
  {
    if w == [] then [t]
    else if timer[w[0]].expiration > timer[t].expiration then [t] + w
    else [w[0]] + Insert(w[1..], timer, t)
  }

  function Disable(s: Timers, t: int): Timers
    requires t in s.timer
  {
    if s.timer[t].enabled
    then s.(working := Without(s.working, t), timer := s.timer[t := s.timer[t].(enabled := false)])
    else s
  }

  function Delay(timer: Timer, initValue: int): int {
    if initValue > 0 then initValue else timer.interval
  }

  /** enable(true, start, initValue); `now` is what the clock says if it is asked. */
  function Enable(s: Timers, t: int, start: int, initValue: int, now: int): (s': Timers)
    requires t in s.timer && Known(s.working, s.timer) && Distinct(s.working)
  {
    var s1 := Disable(s, t);
    var delay := Delay(s.timer[t], initValue);
    if delay <= 0 then s1 else
    var expiration := (if start <= 0 then now else start) + delay;
    var timer := s.timer[t := s.timer[t].(enabled := true, expiration := expiration)];
    WithoutMembers(s.working, t);
    Timers(s.all, Insert(s1.working, timer, t), timer)
  }

  lemma EnableParts(s: Timers, t: int, start: int, initValue: int, now: int)
    requires t in s.timer && Known(s.working, s.timer) && Distinct(s.working)
    ensures var s', s1 := Enable(s, t, start, initValue, now), Disable(s, t);
            var delay := Delay(s.timer[t], initValue);
            && s1.timer.Keys == s.timer.Keys && Delay(s1.timer[t], initValue) == delay
            && if delay <= 0 then s' == s1
               else && s'.timer == s1.timer[t := s1.timer[t].(expiration := (if start <= 0 then now else start) + delay, enabled := true)]
                    && s'.all == s1.all && Known(s1.working, s'.timer) && s'.working == Insert(s1.working, s'.timer, t)
  {
    WithoutMembers(s.working, t);
  }

  /** A list with a new first element that expires no later than the rest. */
  lemma ConsKeeps(x: int, v: seq<int>, timer: map<int, Timer>)
    requires Known(v, timer) && Distinct(v) && Sorted(v, timer) && x in timer
    requires forall i :: 0 <= i < |v| ==> v[i] != x && timer[x].expiration <= timer[v[i]].expiration
    ensures Known([x] + v, timer) && Distinct([x] + v) && Sorted([x] + v, timer)
  {
  }

  lemma {:induction false} WithoutKeeps(w: seq<int>, timer: map<int, Timer>, t: int)
    requires Known(w, timer) && Distinct(w) && Sorted(w, timer)
    ensures var v := Without(w, t); Known(v, timer) && Distinct(v) && Sorted(v, timer)
  {
    if w != [] && w[0] != t {
      WithoutKeeps(w[1..], timer, t);
      WithoutMembers(w[1..], t);
      var v := Without(w[1..], t);
      forall i | 0 <= i < |v| ensures v[i] != w[0] && timer[w[0]].expiration <= timer[v[i]].expiration {
        assert v[i] in w[1..];
      }
      ConsKeeps(w[0], v, timer);
      hide Known, Distinct, Sorted;
    }
  }

  lemma {:induction false} InsertMembers(w: seq<int>, timer: map<int, Timer>, t: int)
    requires Known(w, timer) && t in timer
    ensures forall x :: x in Insert(w, timer, t) <==> x in w || x == t
  {
    if w != [] {
      InsertMembers(w[1..], timer, t);
    }
  }

  lemma {:induction false} InsertKeeps(w: seq<int>, timer: map<int, Timer>, t: int)
    requires Known(w, timer) && t in timer && Distinct(w) && Sorted(w, timer) && t !in w
    ensures var v := Insert(w, timer, t); Known(v, timer) && Distinct(v) && Sorted(v, timer)
  {
    if w != [] && timer[w[0]].expiration <= timer[t].expiration {
      InsertKeeps(w[1..], timer, t);
      InsertMembers(w[1..], timer, t);
      var v := Insert(w[1..], timer, t);
      forall i | 0 <= i < |v| ensures v[i] != w[0] && timer[w[0]].expiration <= timer[v[i]].expiration {
        assert v[i] in v;
        assert v[i] in w[1..] || v[i] == t;
      }
    }
  }

  lemma DisableKeeps(s: Timers, t: int, clock: int)
    requires Valid(s, clock) && t in s.timer
    ensures Valid(Disable(s, t), clock) && t !in Disable(s, t).working
  {
    WithoutKeeps(s.working, s.timer, t);
    WithoutMembers(s.working, t);
    var s' := Disable(s, t);
    assert Known(s'.working, s'.timer);
  }

  lemma EnableKeeps(s: Timers, t: int, start: int, initValue: int, now: int, clock: int)
    requires Valid(s, clock) && t in s.all && start <= now && clock <= now && initValue <= MAX_INT32
    ensures Valid(Enable(s, t, start, initValue, now), now)
  {
    var s', s1 := Enable(s, t, start, initValue, now), Disable(s, t);
    DisableKeeps(s, t, clock);
    WithoutMembers(s.working, t);
    if Delay(s.timer[t], initValue) > 0 {
      assert Known(s1.working, s'.timer) && Sorted(s1.working, s'.timer);
      InsertKeeps(s1.working, s'.timer, t);
      InsertMembers(s1.working, s'.timer, t);
    }
  }

  /** An inserted timer comes behind exactly the timers that expire no later, so equal ones keep their turn. */
  lemma {:induction false} InsertBehind(w: seq<int>, timer: map<int, Timer>, t: int) returns (k: nat)
    requires Known(w, timer) && t in timer && Sorted(w, timer)
    ensures k <= |w| && Insert(w, timer, t) == w[..k] + [t] + w[k..]
    ensures forall i :: 0 <= i < |w| ==> (i < k <==> timer[w[i]].expiration <= timer[t].expiration)
  {
    k := 0;
    if w != [] && timer[w[0]].expiration <= timer[t].expiration {
      k := InsertBehind(w[1..], timer, t);
      assert forall i :: 0 < i < |w| ==> w[i] == w[1..][i - 1];
      k := k + 1;
    }
  }

  /**
   Enabling arms the timer for the start time, or now if there is none, plus the initial
   value, or the interval if there is none; with neither it ends up disabled. It touches
   no other timer.
   */
  lemma EnableMeaning(s: Timers, t: int, start: int, initValue: int, now: int, clock: int)
    requires Valid(s, clock) && t in s.timer
    ensures var s' := Enable(s, t, start, initValue, now);
            && s'.all == s.all && s'.timer.Keys == s.timer.Keys && (forall x :: x in s.timer && x != t ==> s'.timer[x] == s.timer[x])
            && s'.timer[t].interval == s.timer[t].interval && s'.timer[t].repeats == s.timer[t].repeats
            && (s'.timer[t].enabled <==> initValue > 0 || s.timer[t].interval > 0)
            && (s'.timer[t].enabled ==>
                s'.timer[t].expiration == (if start <= 0 then now else start) + (if initValue > 0 then initValue else s.timer[t].interval))
            && (forall x :: x in s'.working <==> (x in s.working && x != t) || (x == t && (initValue > 0 || s.timer[t].interval > 0)))
  {
    var s', s1 := Enable(s, t, start, initValue, now), Disable(s, t);
    WithoutMembers(s.working, t);
    DisableKeeps(s, t, clock);
    if initValue > 0 || s.timer[t].interval > 0 {
      InsertMembers(s1.working, s'.timer, t);
    }
  }

  /** Taken out of the loop. */
  function Remove(s: Timers, t: int): Timers
    requires t in s.timer
  {
    var s1 := Disable(s, t);
    s1.(all := Without(s1.all, t))
  }

  /** Put in the list; a timer not seen before starts disabled. */
  function Attach(s: Timers, t: int, created: Timer): Timers {
    s.(all := s.all + [t], timer := if t in s.timer then s.timer else s.timer[t := created.(enabled := false)])
  }

  lemma AttachKeeps(s: Timers, t: int, created: Timer, clock: int)
    requires Valid(s, clock) && t !in s.all && created.interval <= MAX_INT32
    ensures var s' := Attach(s, t, created); Valid(s', clock) && t in s'.all && t in s'.timer
  {
    var s' := Attach(s, t, created);
    forall i | 0 <= i < |s'.working| ensures s'.working[i] in s'.timer {
      var x := s.working[i];
      assert x in s.timer;
    }
    assert s'.all[|s.all|] == t;
  }

  lemma RemoveKeeps(s: Timers, t: int, clock: int)
    requires Valid(s, clock) && t in s.timer
    ensures Valid(Remove(s, t), clock) && t !in Remove(s, t).all && t !in Remove(s, t).working
  {
    DisableKeeps(s, t, clock);
    WithoutMembers(s.all, t);
    DistinctWithout(s.all, t);
    assert Known(Remove(s, t).all, Remove(s, t).timer);
  }

  /** Where Insert puts the timer. */
  lemma {:induction false} InsertAt(w: seq<int>, timer: map<int, Timer>, t: int, i: nat)
    requires Known(w, timer) && t in timer && i <= |w|
    requires forall j :: 0 <= j < i ==> timer[w[j]].expiration <= timer[t].expiration
    requires i < |w| ==> timer[w[i]].expiration > timer[t].expiration
    ensures Insert(w, timer, t) == w[..i] + [t] + w[i..]
  {
    if i > 0 {
      InsertAt(w[1..], timer, t, i - 1);
      assert w[..i] == [w[0]] + w[1..][..i - 1] && w[i..] == w[1..][i - 1..];
    }
  }

  // ------------------------------------------------------------------ timer pass

  /** The leading timers of the working list that are due. */
  function Captured(w: seq<int>, timer: map<int, Timer>, now: int): seq<int>
    requires Known(w, timer)
  {
    if w == [] || timer[w[0]].expiration > now then [] else [w[0]] + Captured(w[1..], timer, now)
  }

  /** Capturing a prefix of the sorted list captures exactly the enabled timers that are due. */
  lemma {:induction false} CapturedExact(w: seq<int>, timer: map<int, Timer>, now: int)
    requires Known(w, timer) && Sorted(w, timer)
    ensures Captured(w, timer, now) <= w
    ensures forall t :: t in Captured(w, timer, now) <==> t in w && timer[t].expiration <= now
  {
    if w != [] && timer[w[0]].expiration <= now {
      CapturedExact(w[1..], timer, now);
    }
  }

  /** One round of the rearming loop; `later` is what the clock says if it is asked. */
  function Rearm(s: Timers, t: int, now: int, later: int): Timers
    requires t in s.timer && Known(s.working, s.timer) && Distinct(s.working)
  {
    if s.timer[t].repeats then Enable(s, t, now, 0, later) else Disable(s, t)
  }

  lemma RearmKeeps(s: Timers, t: int, now: int, later: int)
    requires Valid(s, later) && t in s.working && now <= later
    ensures Valid(Rearm(s, t, now, later), later)
    ensures var s' := Rearm(s, t, now, later);
            && s'.all == s.all && s'.timer.Keys == s.timer.Keys && (forall x :: x in s.timer && x != t ==> s'.timer[x] == s.timer[x])
            && (s'.timer[t].enabled <==> s.timer[t].repeats && s.timer[t].interval > 0)
            && (s'.timer[t].enabled ==> s'.timer[t].expiration > now)
            && (s'.timer[t].enabled ==> s'.timer[t].expiration == (if now <= 0 then later else now) + s.timer[t].interval)
  {
    EnableKeeps(s, t, now, 0, later, later);
    DisableKeeps(s, t, later);
  }

  function RearmAll(s: Timers, tos: seq<int>, now: int, later: int): (s': Timers)
    requires Valid(s, later) && now <= later && Distinct(tos) && (forall t :: t in tos ==> t in s.working)
    ensures Valid(s', later)
    decreases |tos|
  {
    if tos == [] then s else
    RearmKeeps(s, tos[0], now, later);
    RearmAll(Rearm(s, tos[0], now, later), tos[1..], now, later)
  }

  /** After rearming: a due timer is enabled exactly if it repeats with a positive interval, and no timer is due. */
  lemma {:induction false} RearmedAreAhead(s: Timers, tos: seq<int>, now: int, later: int)
    requires Valid(s, later) && now <= later && Distinct(tos) && (forall t :: t in tos ==> t in s.working)
    ensures var s' := RearmAll(s, tos, now, later);
            && s'.timer.Keys == s.timer.Keys && s'.all == s.all
            && (forall t :: t in s.timer && t !in tos ==> s'.timer[t] == s.timer[t])
            && (forall t :: t in tos ==>
                  && (s'.timer[t].enabled <==> s.timer[t].repeats && s.timer[t].interval > 0)
                  && (s'.timer[t].enabled ==> s'.timer[t].expiration > now)
                  && (s'.timer[t].enabled ==> s'.timer[t].expiration == (if now <= 0 then later else now) + s.timer[t].interval))
    decreases |tos|
  {
    if tos != [] {
      RearmKeeps(s, tos[0], now, later);
      RearmedAreAhead(Rearm(s, tos[0], now, later), tos[1..], now, later);
    }
  }

  /** Once the captured timers are rearmed, every enabled timer expires strictly after now. */
  lemma RearmingLeavesNoneDue(s: Timers, now: int, later: int)
    requires Valid(s, later) && now <= later
    ensures var tos := Captured(s.working, s.timer, now);
            && Distinct(tos) && (forall t :: t in tos ==> t in s.working)
            && var s' := RearmAll(s, tos, now, later);
               forall t :: t in s'.working ==> s'.timer[t].expiration > now
  {
    var tos := Captured(s.working, s.timer, now);
    CapturedExact(s.working, s.timer, now);
    RearmedAreAhead(s, tos, now, later);
  }

  /** What capturing and rearming do, for the whole pass. */
  lemma PassFacts(s: Timers, now: int)
    requires Valid(s, now)
    ensures var tos := Captured(s.working, s.timer, now);
            && Distinct(tos) && tos <= s.working && (forall t :: t in tos ==> t in s.working)
            && (forall t :: t in tos <==> t in s.working && s.timer[t].expiration <= now)
            && var s' := RearmAll(s, tos, now, now);
               && Valid(s', now) && s'.all == s.all && Known(tos, s'.timer) && (tos == [] ==> s' == s)
               && (forall t :: t in s'.working ==> s'.timer[t].expiration > now)
               && (forall t :: t in s.timer && t !in tos ==> t in s'.timer && s'.timer[t] == s.timer[t])
               && (forall t :: t in tos ==>
                     && t in s.timer && t in s'.timer && (s'.timer[t].enabled <==> s.timer[t].repeats && s.timer[t].interval > 0)
                     && (s'.timer[t].enabled ==> s'.timer[t].expiration == now + s.timer[t].interval))
  {
    CapturedExact(s.working, s.timer, now);
    RearmingLeavesNoneDue(s, now, now);
    RearmedAreAhead(s, Captured(s.working, s.timer, now), now, now);
  }

  lemma FirstIsLeast(s: Timers, clock: int)
    requires Valid(s, clock) && s.working != []
    ensures var first := s.timer[s.working[0]].expiration;
            first <= clock + MAX_INT32 && s.working[0] in s.working && forall t :: t in s.working ==> t in s.timer && first <= s.timer[t].expiration
  {
    var t := s.working[0];
    assert t in s.working;
  }

  /** A pass as it is seen: the turn of the i-th captured timer, run or skipped, and removals. */
  datatype Event = Turn(i: nat, ran: bool) | Removed(t: int)

  function Turns(log: seq<Event>): nat {
    if log == [] then 0 else Turns(log[..|log| - 1]) + (if log[|log| - 1].Turn? then 1 else 0)
  }

  /**
   Turns come in the order of capture; a timer is run at its turn exactly if it was not
   removed since the pass began, nor, if the pass is nested, since the outermost one did.
   */
  predicate WellLogged(log: seq<Event>, tos: seq<int>, gone: set<int>) {
    forall p :: 0 <= p < |log| && log[p].Turn? ==>
      && log[p].i == Turns(log[..p]) < |tos|
      && (log[p].ran <==> tos[log[p].i] !in gone && Removed(tos[log[p].i]) !in log[..p])
  }

  lemma EmptyLog(tos: seq<int>, gone: set<int>)
    ensures WellLogged([], tos, gone) && Turns([]) == 0
  {
  }

  lemma LogAppend(log: seq<Event>, e: Event, tos: seq<int>, gone: set<int>)
    requires WellLogged(log, tos, gone)
    requires e.Turn? ==> e.i == Turns(log) < |tos| && (e.ran <==> tos[e.i] !in gone && Removed(tos[e.i]) !in log)
    ensures WellLogged(log + [e], tos, gone) && Turns(log + [e]) == Turns(log) + (if e.Turn? then 1 else 0)
  {
    var log' := log + [e];
    assert log'[..|log|] == log;
    forall p | 0 <= p < |log'| && log'[p].Turn?
      ensures log'[p].i == Turns(log'[..p]) < |tos|
      ensures log'[p].ran <==> tos[log'[p].i] !in gone && Removed(tos[log'[p].i]) !in log'[..p]
    {
      if p < |log| {
        assert log'[..p] == log[..p];
      }
    }
  }

  // ------------------------------------------------------------------ event loop

  /** What a callback may do to the timers of its loop; `at` is the time it is done. */
  datatype Action =
    | Config(t: int, enable: Option<bool>, repeats: Option<bool>, interval: int, initValue: int, at: int)
    | Add(t: int, created: Timer, started: bool, at: int)
    | Take(t: int)

  datatype Callback = Callback(actions: seq<Action>, throws: bool)

  predicate InRange(a: Action) {
    match a
    case Config(_, _, _, interval, initValue, _) => interval <= MAX_INT32 && initValue <= MAX_INT32
    case Add(_, created, _, _) => created.interval <= MAX_INT32
    case Take(_) => true
  }

  /** (int) of an unsigned difference. */
  function ToInt32(x: int): int {
    (x + 0x8000_0000) % UINT32_SPAN - 0x8000_0000
  }

  lemma ToInt32Exact(x: int)
    requires 0 <= x <= MAX_INT32
    ensures ToInt32(x) == x
  {
  }

  class EventLoop {
    var all: seq<int>
    var working: seq<int>
    var timer: map<int, Timer>
    var blackList: set<int>
    var depth: nat
    var clock: int  // the last reading; time does not run backwards

    function View(): Timers
      reads this
    {
      Timers(all, working, timer)
    }

    ghost predicate Ok()
      reads this
    {
      Valid(View(), clock)
    }

    constructor ()
      ensures Ok() && all == [] && depth == 0
    {
      all, working, timer, blackList, depth, clock := [], [], map[], {}, 0, 0;
    }

    method ReadClock(at: int) returns (now: int)
      requires Ok()
      modifies this`clock
      ensures Ok() && now == clock >= old(clock) && now >= at
    {
      clock := if at > clock then at else clock;
      now := clock;
    }

    method DisableTimer(t: int)
      requires Ok() && t in timer
      modifies this`working, this`timer
      ensures Ok() && View() == Disable(old(View()), t)
    {
      DisableKeeps(View(), t, clock);
      if timer[t].enabled {
        working := Erase(working, t);
        timer := timer[t := timer[t].(enabled := false)];
      }
    }

    /** enable(true, ...): the new place is found by a scan for the first later expiry. */
    method EnableTimer(t: int, start: int, initValue: int)
      requires Ok() && t in all && start <= clock && initValue <= MAX_INT32
      modifies this`working, this`timer
      ensures Ok() && View() == Enable(old(View()), t, start, initValue, clock)
    {
      EnableKeeps(View(), t, start, initValue, clock, clock);
      EnableParts(View(), t, start, initValue, clock);
      AllKnown(View(), clock);
      hide Valid, Enable, Disable, Insert, Known, Distinct;
      ghost var goal := Enable(View(), t, start, initValue, clock);
      DisableTimer(t);
      var delay := Delay(timer[t], initValue);
      if delay > 0 {
        var expiration := (if start <= 0 then clock else start) + delay;
        timer := timer[t := timer[t].(expiration := expiration, enabled := true)];
        assert timer == goal.timer;
        Place(t);
      }
    }

    /** The scan for the first timer that expires later. */
    method Place(t: int)
      requires Known(working, timer) && t in timer
      modifies this`working
      ensures working == Insert(old(working), timer, t)
    {
      var i := 0;
      while i < |working| && timer[working[i]].expiration <= timer[t].expiration
        invariant 0 <= i <= |working|
        invariant forall j :: 0 <= j < i ==> timer[working[j]].expiration <= timer[t].expiration
      {
        i := i + 1;
      }
      InsertAt(working, timer, t, i);
      working := working[..i] + [t] + working[i..];
    }

    method AddTimer(t: int, created: Timer, enable: bool)
      requires Ok() && created.interval <= MAX_INT32
      modifies this`all, this`working, this`timer
      ensures Ok() && t in all && timer.Keys == old(timer.Keys) + {t}
      ensures View() == if t in old(all) then old(View())
                        else if enable then Enable(Attach(old(View()), t, created), t, 0, 0, clock)
                        else Disable(Attach(old(View()), t, created), t)
    {
      var i := 0;
      while i < |all|
        invariant 0 <= i <= |all| && t !in all[..i]
      {
        if all[i] == t {
          return;
        }
        i := i + 1;
      }
      AttachKeeps(View(), t, created, clock);
      hide Valid;
      if t !in timer {
        timer := timer[t := created.(enabled := false)];
      }
      all := all + [t];
      if enable {
        EnableTimer(t, 0, 0);
      } else {
        DisableTimer(t);
      }
    }

    method RemoveTimer(t: int)
      requires Ok() && t in timer
      modifies this`all, this`working, this`timer, this`blackList
      ensures Ok() && View() == Remove(old(View()), t) && blackList == old(blackList) + {t}
    {
      RemoveKeeps(View(), t, clock);
      blackList := blackList + {t};
      DisableTimer(t);
      all := Erase(all, t);
    }

    /** config: what is not given stays as it is. */
    method ConfigTimer(t: int, enable: Option<bool>, repeats: Option<bool>, interval: int, initValue: int)
      requires Ok() && t in all && interval <= MAX_INT32 && initValue <= MAX_INT32
      modifies this`working, this`timer
      ensures Ok() && timer.Keys == old(timer.Keys)
      ensures View() == Configured(old(View()), t, enable, repeats, interval, initValue, clock)
    {
      ReconfigKeeps(View(), t, repeats, interval, clock);
      timer := Reconfig(View(), t, repeats, interval).timer;
      hide Valid, Reconfig;
      if enable == Some(true) {
        EnableTimer(t, 0, initValue);
      } else if enable == Some(false) {
        DisableTimer(t);
      }
    }

    /** One thing a callback does; a timer that is not in the loop is only touched by adding it. */
    method Perform(a: Action, log: seq<Event>, tos: seq<int>, ghost gone: set<int>) returns (log': seq<Event>)
      requires Ok() && InRange(a) && WellLogged(log, tos, gone) && blackList == gone + RemovedIn(log)
      modifies this
      ensures Ok() && WellLogged(log', tos, gone) && blackList == gone + RemovedIn(log') && Turns(log') == Turns(log) && depth == old(depth)
      ensures timer.Keys >= old(timer.Keys)
      ensures log' == log + if a.Take? && a.t in old(timer) then [Removed(a.t)] else []
      ensures View() == match a
                        case Config(t, enable, repeats, interval, initValue, _) =>
                          if t in old(all) then Configured(old(View()), t, enable, repeats, interval, initValue, clock) else old(View())
                        case Add(t, created, started, _) =>
                          if t in old(all) then old(View())
                          else if started then Enable(Attach(old(View()), t, created), t, 0, 0, clock)
                          else Disable(Attach(old(View()), t, created), t)
                        case Take(t) => if t in old(timer) then Remove(old(View()), t) else old(View())
    {
      log' := log;
      hide Valid, WellLogged, Enable, Disable;
      match a
      case Config(t, enable, repeats, interval, initValue, at) =>
        if t in all {
          AllKnown(View(), clock);
          var now := ReadClock(at);
          ConfigTimer(t, enable, repeats, interval, initValue);
        }
      case Add(t, created, started, at) =>
        var now := ReadClock(at);
        AddTimer(t, created, started);
      case Take(t) =>
        if t in timer {
          log' := Take(t, log, tos, gone);
        }
    }

    /** removeTimer within a pass. */
    method Take(t: int, log: seq<Event>, tos: seq<int>, ghost gone: set<int>) returns (log': seq<Event>)
      requires Ok() && t in timer && WellLogged(log, tos, gone) && blackList == gone + RemovedIn(log)
      modifies this
      ensures Ok() && WellLogged(log', tos, gone) && blackList == gone + RemovedIn(log') && Turns(log') == Turns(log) && depth == old(depth)
      ensures timer.Keys >= old(timer.Keys) && log' == log + [Removed(t)] && View() == Remove(old(View()), t) && clock == old(clock)
    {
      hide Valid, WellLogged, Turns;
      LogAppend(log, Removed(t), tos, gone);
      RemoveTimer(t);
      log' := log + [Removed(t)];
    }

    /** The turn of one captured timer. */
    method RunOne(i: nat, callback: Callback, log: seq<Event>, tos: seq<int>, ghost gone: set<int>) returns (log': seq<Event>)
      requires Ok() && i == Turns(log) < |tos| && tos[i] in timer && (forall a :: a in callback.actions ==> InRange(a))
      requires WellLogged(log, tos, gone) && blackList == gone + RemovedIn(log)
      modifies this
      ensures Ok() && WellLogged(log', tos, gone) && blackList == gone + RemovedIn(log') && Turns(log') == i + 1 && depth == old(depth)
      ensures timer.Keys >= old(timer.Keys)
      ensures var ran := tos[i] !in old(blackList);
              log + [Turn(i, ran)] <= log' && (!ran ==> log' == log + [Turn(i, ran)]) && (ran && callback.throws ==> tos[i] in blackList)
    {
      var ran := tos[i] !in blackList;
      LogAppend(log, Turn(i, ran), tos, gone);
      log' := log + [Turn(i, ran)];
      assert RemovedIn(log') == RemovedIn(log);
      hide Valid, WellLogged, Turns;
      if ran {
        var j := 0;
        while j < |callback.actions|
          invariant 0 <= j <= |callback.actions| && Ok() && WellLogged(log', tos, gone) && blackList == gone + RemovedIn(log')
          invariant Turns(log') == i + 1 && timer.Keys >= old(timer.Keys) && depth == old(depth) && log + [Turn(i, ran)] <= log'
        {
          log' := Perform(callback.actions[j], log', tos, gone);
          j := j + 1;
        }
        if callback.throws && tos[i] !in blackList {
          log' := Take(tos[i], log', tos, gone);
        }
      }
    }

    method Capture(now: int) returns (tos: seq<int>)
      requires Ok()
      ensures tos == Captured(working, timer, now)
    {
      var i := 0;
      tos := [];
      while i < |working| && now >= timer[working[i]].expiration
        invariant 0 <= i <= |working|
        invariant Captured(working, timer, now) == tos + Captured(working[i..], timer, now)
        invariant Known(working[i..], timer)
      {
        tos := tos + [working[i]];
        assert working[i..][1..] == working[i + 1..];
        i := i + 1;
      }
    }

    method RearmCaptured(tos: seq<int>, now: int)
      requires Ok() && now <= clock && Distinct(tos) && (forall t :: t in tos ==> t in working)
      modifies this`working, this`timer
      ensures Ok() && View() == RearmAll(old(View()), tos, now, clock)
    {
      hide Valid, Enable, Disable, Distinct;
      var i := 0;
      ghost var goal := RearmAll(View(), tos, now, clock);
      while i < |tos|
        invariant 0 <= i <= |tos| && Ok() && Distinct(tos[i..]) && (forall t :: t in tos[i..] ==> t in working)
        invariant RearmAll(View(), tos[i..], now, clock) == goal
      {
        ghost var rest := tos[i..];
        assert rest[1..] == tos[i + 1..];
        RearmStep(View(), rest, now, clock);
        if timer[tos[i]].repeats {
          EnableTimer(tos[i], now, 0);
        } else {
          DisableTimer(tos[i]);
        }
        i := i + 1;
      }
    }

    /**
     processTimers: what is captured is exactly what is enabled and due, in order of
     expiry; then every enabled timer is ahead of now; then each captured timer has
     one turn and is run at it, even if disabled meanwhile, unless it was removed.
     */
    method ProcessTimers(at: int, env: nat -> Callback) returns (tos: seq<int>, log: seq<Event>, ghost rearmed: Timers, ghost now: int)
      requires Ok() && forall i, a :: a in env(i).actions ==> InRange(a)
      modifies this
      ensures Ok() && depth == old(depth) && now >= at
      ensures tos <= old(working) && forall t :: t in tos <==> t in old(working) && old(timer)[t].expiration <= now
      ensures Valid(rearmed, now) && rearmed.all == old(all) && forall t :: t in rearmed.working ==> rearmed.timer[t].expiration > now
      ensures forall t :: t in old(timer) && t !in tos ==> t in rearmed.timer && rearmed.timer[t] == old(timer)[t]
      ensures forall t :: t in tos ==>
                && t in old(timer) && t in rearmed.timer && (rearmed.timer[t].enabled <==> old(timer)[t].repeats && old(timer)[t].interval > 0)
                && (rearmed.timer[t].enabled ==> rearmed.timer[t].expiration == now + old(timer)[t].interval)
      ensures WellLogged(log, tos, if old(depth) == 0 then {} else old(blackList)) && Turns(log) == |tos|
    {
      var reading := ReadClock(at);
      now := reading;
      tos := Capture(reading);
      PassFacts(View(), now);
      log := [];
      rearmed := View();
      hide Valid, RearmAll, Captured, WellLogged, Turns, Known, Distinct;
      EmptyLog(tos, if depth == 0 then {} else blackList);
      if tos != [] {
        log, rearmed := RunPass(tos, reading, env);
      }
    }

    /** The rest of the pass: the black list is opened, timers are rearmed and run, and the black list is closed. */
    method RunPass(tos: seq<int>, now: int, env: nat -> Callback) returns (log: seq<Event>, ghost rearmed: Timers)
      requires Ok() && now == clock && Distinct(tos) && (forall t :: t in tos ==> t in working)
      requires Known(tos, RearmAll(View(), tos, now, clock).timer) && forall i, a :: a in env(i).actions ==> InRange(a)
      modifies this
      ensures Ok() && depth == old(depth) && rearmed == RearmAll(old(View()), tos, now, old(clock))
      ensures WellLogged(log, tos, if old(depth) == 0 then {} else old(blackList)) && Turns(log) == |tos|
    {
      hide Valid, RearmAll, WellLogged, Turns, Known, Distinct;
      if depth == 0 {
        blackList := {};
      }
      depth := depth + 1;
      RearmCaptured(tos, now);
      rearmed := View();
      log := RunCaptured(tos, env);
      depth := depth - 1;
      if depth == 0 {
        blackList := {};
      }
    }

    method RunCaptured(tos: seq<int>, env: nat -> Callback) returns (log: seq<Event>)
      requires Ok() && Known(tos, timer) && forall i, a :: a in env(i).actions ==> InRange(a)
      modifies this
      ensures Ok() && WellLogged(log, tos, old(blackList)) && Turns(log) == |tos| && depth == old(depth)
    {
      ghost var gone := blackList;
      log := [];
      assert blackList == gone + RemovedIn(log);
      var i := 0;
      while i < |tos|
        invariant 0 <= i <= |tos| && Ok() && WellLogged(log, tos, gone) && blackList == gone + RemovedIn(log) && Turns(log) == i
        invariant depth == old(depth) && Known(tos, timer)
      {
        hide Valid, WellLogged, Turns, RemovedIn;
        log := RunOne(i, env(i), log, tos, gone);
        i := i + 1;
      }
    }

    /** The wait until the first timer is due, zero if one is, and -1 if none is enabled. */
    method GetMostRecentTime(at: int) returns (wait: int)
      requires Ok()
      modifies this`clock
      ensures Ok() && (wait == -1 <==> working == [])
      ensures working != [] ==> 0 <= wait && (forall t :: t in working ==> wait <= Max(0, timer[t].expiration - clock))
      ensures working != [] ==> exists t :: t in working && wait == Max(0, timer[t].expiration - clock)
    {
      var now := ReadClock(at);
      wait := -1;
      if working != [] {
        var first := timer[working[0]].expiration;
        FirstIsLeast(View(), clock);
        hide Valid;
        ToInt32Exact(Max(0, first - now));
        wait := if first > now then ToInt32(first - now) else 0;
        ghost var t := working[0];
        assert t in working && wait == Max(0, timer[t].expiration - clock);
      }
    }
  }

  function RemovedIn(log: seq<Event>): set<int> {
    set e | e in log && e.Removed? :: e.t
  }

  lemma AllKnown(s: Timers, clock: int)
    requires Valid(s, clock)
    ensures forall t :: t in s.all ==> t in s.timer
  {
  }

  function Reconfig(s: Timers, t: int, repeats: Option<bool>, interval: int): Timers
    requires t in s.timer
  {
    var timer := s.timer[t].(repeats := repeats.GetOr(s.timer[t].repeats),
                             interval := if interval > 0 then interval else s.timer[t].interval);
    s.(timer := s.timer[t := timer])
  }

  function Configured(s: Timers, t: int, enable: Option<bool>, repeats: Option<bool>, interval: int, initValue: int, now: int): Timers
    requires t in s.timer && Known(s.working, s.timer) && Distinct(s.working)
  {
    var s1 := Reconfig(s, t, repeats, interval);
    if enable == None then s1 else if enable.value then Enable(s1, t, 0, initValue, now) else Disable(s1, t)
  }

  /** What a configuration leaves: the given fields, and the timer armed, disarmed or as it was. */
  lemma ConfiguredMeaning(s: Timers, t: int, enable: Option<bool>, repeats: Option<bool>, interval: int, initValue: int, now: int, clock: int)
    requires Valid(s, clock) && t in s.timer && interval <= MAX_INT32
    ensures var s' := Configured(s, t, enable, repeats, interval, initValue, now);
            var every := if interval > 0 then interval else s.timer[t].interval;
            && s'.all == s.all && s'.timer.Keys == s.timer.Keys && (forall x :: x in s.timer && x != t ==> s'.timer[x] == s.timer[x])
            && s'.timer[t].interval == every && s'.timer[t].repeats == (if repeats.Some? then repeats.value else s.timer[t].repeats)
            && (enable == None ==> s'.timer[t].enabled == s.timer[t].enabled && s'.timer[t].expiration == s.timer[t].expiration && s'.working == s.working)
            && (enable == Some(false) ==> !s'.timer[t].enabled && t !in s'.working)
            && (enable == Some(true) ==>
                && (s'.timer[t].enabled <==> initValue > 0 || every > 0)
                && (s'.timer[t].enabled ==> s'.timer[t].expiration == now + if initValue > 0 then initValue else every))
  {
    ReconfigKeeps(s, t, repeats, interval, clock);
    var s1 := Reconfig(s, t, repeats, interval);
    EnableMeaning(s1, t, 0, initValue, now, clock);
    DisableKeeps(s1, t, clock);
    hide Enable;
  }

  /** A new timer goes to the end of the list, disabled; a removed one is in neither list, and its settings stay. */
  lemma AttachedAndRemoved(s: Timers, t: int, created: Timer, clock: int)
    requires Valid(s, clock)
    ensures t !in s.timer ==>
              var s' := Attach(s, t, created);
              s'.all == s.all + [t] && s'.working == s.working && s'.timer == s.timer[t := created.(enabled := false)]
    ensures t in s.timer ==>
              var s' := Remove(s, t);
              && (forall x :: x in s'.all <==> x in s.all && x != t) && (forall x :: x in s'.working <==> x in s.working && x != t)
              && s'.timer == s.timer[t := s.timer[t].(enabled := false)]
  {
    if t in s.timer {
      WithoutMembers(s.all, t);
      WithoutMembers(s.working, t);
      assert s.timer[t := s.timer[t].(enabled := false)] == Remove(s, t).timer;
    }
  }

  lemma ReconfigKeeps(s: Timers, t: int, repeats: Option<bool>, interval: int, clock: int)
    requires Valid(s, clock) && t in s.timer && interval <= MAX_INT32
    ensures Valid(Reconfig(s, t, repeats, interval), clock)
  {
  }

  lemma RearmStep(s: Timers, tos: seq<int>, now: int, later: int)
    requires Valid(s, later) && now <= later && Distinct(tos) && tos != [] && (forall t :: t in tos ==> t in s.working)
    ensures tos[0] in s.timer && tos[0] in s.all
    ensures var s' := Rearm(s, tos[0], now, later);
            && Valid(s', later) && Distinct(tos[1..]) && (forall t :: t in tos[1..] ==> t in s'.working)
            && RearmAll(s, tos, now, later) == RearmAll(s', tos[1..], now, later)
  {
    RearmKeeps(s, tos[0], now, later);
  }

  function Max(a: int, b: int): int {
    if a > b then a else b
  }
}
