/**
 CFdEventLoop: one pass over the polled watches, whose handlers may add, remove and
 disable watches and re-enter the loop for input, to any depth.
 */
module Watches {
  import opened Common
  import opened Lists

  datatype Kind = OnInput | OnOutput | OnHup | OnError

  datatype Poll = In | Out | Err | Hup

  /** What a handler does, thing by thing; re-entering polls the working list for input. */
  datatype Act =
    | RemoveWatch(w: int)
    | AddWatch(w: int, on: bool)
    | EnableWatch(w: int, on: bool)
    | SetFatal(w: int, on: bool)
    | Reenter(pollable: set<int>, ready: seq<Option<Handler>>)

  datatype Handler = Handler(acts: seq<Act>, ioError: bool, throws: bool)

  /** What poll reported for a watch, and what its handlers would do. */
  datatype Polled = Polled(w: int, revents: set<Poll>, input: Handler, output: Handler, hup: Handler, error: Handler)

  /** Whether the watch was in the loop, and in its working list, when the handler was called is recorded. */
  datatype Happened = Called(w: int, kind: Kind, registered: bool, enabled: bool) | Removed(w: int)

  /**
   No handler is called on a watch after it was removed, or while it is not in the loop,
   and onError only once the watch is disabled.
   */
  predicate Safe(log: seq<Happened>) {
    && (forall i, j :: 0 <= i < j < |log| && log[i].Removed? && log[j].Called? ==> log[i].w != log[j].w)
    && (forall i :: 0 <= i < |log| && log[i].Called? ==> log[i].registered && (log[i].kind == OnError ==> !log[i].enabled))
  }

  predicate Calls(e: Happened, w: int, kind: Kind) {
    e.Called? && e.w == w && e.kind == kind
  }

  function Gone(log: seq<Happened>): set<int> {
    set e | e in log && e.Removed? :: e.w
  }

  lemma SafeAppend(log: seq<Happened>, e: Happened)
    requires Safe(log) && (e.Called? ==> e.w !in Gone(log) && e.registered && (e.kind == OnError ==> !e.enabled))
    ensures Safe(log + [e]) && Gone(log + [e]) == Gone(log) + (if e.Removed? then {e.w} else {})
  {
    var log' := log + [e];
    forall i | 0 <= i < |log| && log[i].Removed? && e.Called? ensures log[i].w != e.w {
      assert log[i] in log;
    }
    assert Gone(log') == Gone(log) + (if e.Removed? then {e.w} else {});
  }

  lemma EmptySafe()
    ensures Safe([]) && Gone([]) == {}
  {
  }

  /** The first handler that is called at a watch's turn. */
  function FirstCall(fatal: bool, revents: set<Poll>): Option<Kind> {
    if fatal || Err in revents then Some(OnError)
    else if Hup in revents then Some(OnHup)
    else if In in revents then Some(OnInput)
    else if Out in revents then Some(OnOutput)
    else None
  }

  /** Where the log stood when a watch's turn came, and whether the watch was fatal then. */
  datatype Turn = Turn(at: nat, fatal: bool)

  /**
   At its turn a watch is passed over exactly if it was removed since the outermost
   pass began or has nothing to report; else its first handler is called.
   */
  predicate TurnTaken(log: seq<Happened>, turn: Turn, next: nat, p: Polled) {
    && turn.at <= next <= |log|
    && var first := FirstCall(turn.fatal, p.revents);
       if p.w in Gone(log[..turn.at]) || first.None? then next == turn.at
       else turn.at < next && Calls(log[turn.at], p.w, first.value)
  }

  /**
   A fatal watch or an error goes to onError, else a hang-up to onHup, else input before
   output; a watch that was removed, or has none of these, is passed over.
   */
  lemma TurnMeaning(log: seq<Happened>, turn: Turn, next: nat, p: Polled)
    requires TurnTaken(log, turn, next, p)
    ensures var took := (kind: Kind) => turn.at < next <= |log| && log[turn.at].Called? && log[turn.at].w == p.w && log[turn.at].kind == kind;
            if p.w in Gone(log[..turn.at]) || (!turn.fatal && p.revents == {}) then next == turn.at
            else if turn.fatal || Err in p.revents then took(OnError)
            else if Hup in p.revents then took(OnHup)
            else if In in p.revents then took(OnInput)
            else took(OnOutput)
  {
    if !turn.fatal && Err !in p.revents && Hup !in p.revents && In !in p.revents && Out !in p.revents {
      forall e: Poll ensures e !in p.revents {
        match e
        case In =>
        case Out =>
        case Err =>
        case Hup =>
      }
    }
  }

  /** The turn of a watch in a nested input pass: its input handler is called exactly if it is ready and was not removed. */
  predicate InputTurn(log: seq<Happened>, from: nat, to: nat, w: int, ready: bool) {
    && from <= to <= |log|
    && if w in Gone(log[..from]) || !ready then to == from else from < to && Calls(log[from], w, OnInput)
  }

  lemma InputTurnsLater(log: seq<Happened>, log': seq<Happened>, at: seq<nat>, watches: seq<int>, ready: seq<Option<Handler>>, n: nat)
    requires log <= log' && n <= |watches| && |at| == n + 1
    requires forall k :: 0 <= k < n ==>
               var j := |watches| - 1 - k; InputTurn(log, at[k], at[k + 1], watches[j], j < |ready| && ready[j].Some?)
    ensures forall k :: 0 <= k < n ==>
              var j := |watches| - 1 - k; InputTurn(log', at[k], at[k + 1], watches[j], j < |ready| && ready[j].Some?)
  {
    forall k | 0 <= k < n
      ensures var j := |watches| - 1 - k; InputTurn(log', at[k], at[k + 1], watches[j], j < |ready| && ready[j].Some?)
    {
      var j := |watches| - 1 - k;
      assert InputTurn(log, at[k], at[k + 1], watches[j], j < |ready| && ready[j].Some?);
      assert log'[..at[k]] == log[..at[k]];
    }
  }

  class EventLoop {
    var watchList: set<int>
    var workingList: seq<int>
    var fatal: set<int>
    var blackList: set<int>
    var depth: nat
    ghost var log: seq<Happened>  // since the outermost pass began

    /** The black list holds every removal since the outermost pass began. */
    ghost predicate Valid()
      reads this
    {
      && Distinct(workingList) && (forall w :: w in workingList ==> w in watchList)
      && Safe(log) && (depth > 0 ==> blackList == Gone(log))
    }

    /** What every step within a pass keeps. */
    twostate predicate Kept()
      reads this
    {
      && Valid() && depth == old(depth) && old(log) <= log
      && old(blackList) <= blackList && (forall w :: w in old(watchList) ==> w in watchList || w in blackList)
    }

    /** registerWatch(true), then enable. */
    method Add(w: int, on: bool)
      requires Valid()
      modifies this
      ensures Kept() && watchList == old(watchList) + {w} && (w in workingList <==> on) && log == old(log) && blackList == old(blackList)
    {
      watchList := watchList + {w};
      SetEnabled(w, on);
    }

    method SetEnabled(w: int, on: bool)
      requires Valid() && w in watchList
      modifies this`workingList, this`fatal
      ensures Kept() && (w in workingList <==> on) && fatal == (if on then old(fatal) - {w} else old(fatal))
      ensures forall x :: x != w ==> (x in workingList <==> x in old(workingList))
    {
      if on {
        fatal := fatal - {w};
        if w !in workingList {
          workingList := workingList + [w];
        }
      } else {
        WithoutMembers(workingList, w);
        DistinctWithout(workingList, w);
        workingList := Erase(workingList, w);
      }
    }

    method Remove(w: int)
      requires Valid() && w in watchList
      modifies this
      ensures Kept() && log == old(log) + [Removed(w)] && w !in watchList && w in blackList
    {
      hide Safe;
      SafeAppend(log, Removed(w));
      blackList := blackList + {w};
      log := log + [Removed(w)];
      SetEnabled(w, false);
      watchList := watchList - {w};
    }

    /** A handler call; every call site must know that the watch is neither removed nor unregistered. */
    method Call(w: int, kind: Kind, h: Handler)
      requires Valid() && depth > 0 && w !in blackList && w in watchList && (kind == OnError ==> w !in workingList)
      modifies this
      ensures Kept() && |old(log)| < |log| && Calls(log[|old(log)|], w, kind)
      decreases h, 1
    {
      SafeAppend(log, Called(w, kind, true, w in workingList));
      log := log + [Called(w, kind, true, w in workingList)];
      label called:
      hide Safe, Gone, Distinct;
      var i := 0;
      while i < |h.acts|
        invariant 0 <= i <= |h.acts| && Kept() && old@called(log) <= log
      {
        label before:
        Perform(h.acts[i]);
        assert Kept@before();
        i := i + 1;
      }
    }

    method Perform(act: Act)
      requires Valid() && depth > 0
      modifies this
      ensures Kept()
      ensures act.RemoveWatch? ==> act.w !in watchList && (act.w in old(watchList) ==> log == old(log) + [Removed(act.w)])
      ensures act.AddWatch? ==> act.w in watchList && (act.w in workingList <==> act.on)
      ensures act.EnableWatch? && act.w in old(watchList) ==> (act.w in workingList <==> act.on)
      ensures act.SetFatal? && act.w in old(watchList) ==> (act.w in fatal <==> act.on)
      decreases act, 1
    {
      hide Safe, Gone, Distinct;
      match act
      case RemoveWatch(w) =>
        if w in watchList {
          Remove(w);
        }
      case AddWatch(w, on) => Add(w, on);
      case EnableWatch(w, on) =>
        if w in watchList {
          SetEnabled(w, on);
        }
      case SetFatal(w, on) =>
        if w in watchList {
          fatal := if on then fatal + {w} else fatal - {w};
        }
      case Reenter(pollable, ready) =>
        ghost var watches, at := DispatchInput(act);
    }

    /**
     dispatchInput and processInputWatches: the working list but for its first watch, in
     reverse. Outside any pass it is the outermost one.
     */
    method DispatchInput(act: Act) returns (ghost polled: seq<int>, ghost at: seq<nat>)
      requires Valid() && act.Reenter?
      modifies this
      ensures Valid() && depth == old(depth) && (old(depth) > 0 ==> Kept())
      ensures forall w :: w in polled <==> w in old(workingList)[(if old(workingList) == [] then 0 else 1)..] && w in act.pollable
      ensures |at| == |polled| + 1 && forall i :: 0 <= i < |polled| ==>
                var j := |polled| - 1 - i;
                InputTurn(log, at[i], at[i + 1], polled[j], j < |act.ready| && act.ready[j].Some?)
      decreases act, 0
    {
      hide Safe, Gone, Distinct;
      var watches := Pollable(act.pollable);
      polled, at := watches, [|log|];
      if watches == [] {
        return;
      }
      if depth == 0 {
        EmptySafe();
        log, blackList := [], {};
      }
      depth := depth + 1;
      at := [|log|];
      label begun:
      var i := 0;
      while i < |watches|
        invariant 0 <= i <= |watches| && Valid() && depth == old(depth) + 1 && old@begun(log) <= log && old@begun(blackList) <= blackList
        invariant forall w :: w in old@begun(watchList) ==> w in watchList || w in blackList
        invariant forall k :: 0 <= k < |watches| ==> watches[k] in watchList || watches[k] in blackList
        invariant |at| == i + 1 && at[i] == |log|
        invariant forall k :: 0 <= k < i ==>
                    var j := |watches| - 1 - k;
                    InputTurn(log, at[k], at[k + 1], watches[j], j < |act.ready| && act.ready[j].Some?)
      {
        var j := |watches| - 1 - i;
        label turn:
        if watches[j] !in blackList && j < |act.ready| && act.ready[j].Some? {
          label before:
          Call(watches[j], OnInput, act.ready[j].value);
          assert Kept@before();
        }
        assert log[..at[i]] == old@turn(log);
        assert InputTurn(log, at[i], |log|, watches[j], j < |act.ready| && act.ready[j].Some?);
        InputTurnsLater(old@turn(log), log, at, watches, act.ready, i);
        hide InputTurn;
        at := at + [|log|];
        i := i + 1;
      }
      depth := depth - 1;
      if depth == 0 {
        blackList := {};
      }
    }

    /** buildInputFdArray. */
    method Pollable(pollable: set<int>) returns (watches: seq<int>)
      requires Valid()
      ensures forall k :: 0 <= k < |watches| ==> watches[k] in watchList
      ensures forall w :: w in watches <==> w in workingList[(if workingList == [] then 0 else 1)..] && w in pollable
    {
      watches := [];
      var i := 1;
      while i < |workingList|
        invariant 1 <= i && (workingList != [] ==> i <= |workingList|)
        invariant forall k :: 0 <= k < |watches| ==> watches[k] in watchList
        invariant workingList != [] ==> forall w :: w in watches <==> w in workingList[1..i] && w in pollable
        invariant workingList == [] ==> watches == []
      {
        var w := workingList[i];
        if w in pollable {
          watches := watches + [w];
        }
        i := i + 1;
      }
    }

    /** enable(false), onError and what follows if it throws. */
    method Fail(w: int, h: Handler)
      requires Valid() && depth > 0 && w !in blackList && w in watchList
      modifies this
      ensures Kept() && |old(log)| < |log| && Calls(log[|old(log)|], w, OnError)
      ensures h.throws ==> w in blackList
    {
      SetEnabled(w, false);
      label disabled:
      Call(w, OnError, h);
      if h.throws && w !in blackList {
        label thrown:
        Remove(w);
        assert Kept@thrown();
      }
    }

    /** One round of processWatches. */
    method ProcessOne(p: Polled)
      requires Valid() && depth > 0 && (p.w in watchList || p.w in blackList)
      modifies this
      ensures Kept() && TurnTaken(log, Turn(|old(log)|, p.w in old(fatal)), |log|, p)
    {
      if p.w in blackList {
        return;
      }
      if p.w in fatal || Err in p.revents {
        Fail(p.w, p.error);
      } else if Hup in p.revents {
        Call(p.w, OnHup, p.hup);
      } else if In in p.revents || Out in p.revents {
        Transfer(p);
      }
    }

    /** Input, then output, then the error they reported, each only while the watch is not removed. */
    method Transfer(p: Polled)
      requires Valid() && depth > 0 && p.w !in blackList && p.w in watchList && (In in p.revents || Out in p.revents)
      modifies this
      ensures Kept() && |old(log)| < |log| && Calls(log[|old(log)|], p.w, if In in p.revents then OnInput else OnOutput)
      ensures p.w !in blackList && Out in p.revents ==> exists i :: |old(log)| <= i < |log| && Calls(log[i], p.w, OnOutput)
      ensures p.w !in blackList && ((In in p.revents && p.input.ioError) || (Out in p.revents && p.output.ioError))
              ==> exists i :: |old(log)| <= i < |log| && Calls(log[i], p.w, OnError)
    {
      var ioError := false;
      if In in p.revents {
        Call(p.w, OnInput, p.input);
        ioError := p.input.ioError;
        if p.w in blackList {
          return;
        }
      }
      label input:
      if Out in p.revents {
        Call(p.w, OnOutput, p.output);
        ioError := ioError || p.output.ioError;
        if p.w in blackList {
          return;
        }
      }
      label output:
      if ioError || p.w in fatal {
        Fail(p.w, p.error);
      }
    }

    /**
     processWatches, outermost: every polled watch has one turn, from the last to the
     first, and in the whole pass, nested ones included, no handler is called on a
     watch that was removed.
     */
    method ProcessWatches(polled: seq<Polled>) returns (ghost turns: seq<Turn>)
      requires Valid() && depth == 0
      requires forall k :: 0 <= k < |polled| ==> polled[k].w in watchList  // the poll array is live
      modifies this
      ensures Valid() && depth == 0 && Safe(log) && |turns| == |polled| + 1 && turns[0].at == 0 && turns[|polled|].at == |log|
      ensures forall i :: 0 <= i < |polled| ==> TurnTaken(log, turns[i], turns[i + 1].at, polled[|polled| - 1 - i])
    {
      log, blackList := [], {};
      depth := 1;
      turns := [Turn(0, false)];
      var i := 0;
      while i < |polled|
        invariant 0 <= i <= |polled| && Valid() && depth == 1 && |turns| == i + 1 && turns[0].at == 0 && turns[i].at == |log|
        invariant forall k :: 0 <= k < |polled| ==> polled[k].w in watchList || polled[k].w in blackList
        invariant forall k :: 0 <= k < i ==> TurnTaken(log, turns[k], turns[k + 1].at, polled[|polled| - 1 - k])
      {
        turns := turns[i := Turn(|log|, polled[|polled| - 1 - i].w in fatal)];
        ProcessOne(polled[|polled| - 1 - i]);
        turns := turns + [Turn(|log|, false)];
        i := i + 1;
      }
      depth := 0;
      blackList := {};
    }
  }
}
