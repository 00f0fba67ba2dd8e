/** The timers of the network server (src/inet/clock.c): a list in order of time, and the alarm that the next one needs. */
module Timers {
  import opened Basics

  /** What the function of an expired timer does: it sets and cancels timers. */
  datatype Action = Set(timer: nat, timeout: nat) | Cancel(timer: nat)

  datatype Timer = Timer(next: int, time: nat, active: bool)

  ghost predicate LinkedAt(t: seq<Timer>, l: seq<int>, k: int) {
    0 <= k < |l| && 0 <= l[k] < |t| && t[l[k]].next == At(l, k + 1)
  }

  function TimeAt(t: seq<Timer>, i: int): nat {
    if 0 <= i < |t| then t[i].time else 0
  }

  /** The list from head on is l: each timer once, in order of time, and exactly the active ones. */
  ghost predicate Chain(t: seq<Timer>, head: int, l: seq<int>) {
    head == At(l, 0) && Links(t, l) && Distinct(l) && InOrder(t, l) && Active(t, l)
  }

  ghost predicate Links(t: seq<Timer>, l: seq<int>) {
    forall k {:trigger LinkedAt(t, l, k)} :: 0 <= k < |l| ==> LinkedAt(t, l, k)
  }

  ghost predicate InOrder(t: seq<Timer>, l: seq<int>) {
    forall i, j :: 0 <= i < j < |l| ==> TimeAt(t, l[i]) <= TimeAt(t, l[j])
  }

  ghost predicate Active(t: seq<Timer>, l: seq<int>) {
    forall i :: 0 <= i < |t| ==> (t[i].active <==> i in l)
  }

  function With(l: seq<int>, k: int, x: int): (m: seq<int>)
    requires 0 <= k <= |l|
    ensures |m| == |l| + 1 && forall j :: 0 <= j < |m| ==> m[j] == if j < k then l[j] else if j == k then x else l[j - 1]
  {
    l[..k] + [x] + l[k..]
  }

  lemma WithoutHas(l: seq<int>, k: nat)
    requires k < |l| && Distinct(l)
    ensures Distinct(Without(l, k)) && forall i :: i in Without(l, k) <==> i in l && i != l[k]
  {
    var m := Without(l, k);
    forall i | i in l && i != l[k] ensures i in m {
      var j :| 0 <= j < |l| && l[j] == i;
      assert m[if j < k then j else j - 1] == i;
    }
  }

  lemma WithHas(l: seq<int>, k: nat, x: int)
    requires k <= |l|
    ensures forall i :: i in With(l, k, x) <==> i in l || i == x
    ensures Distinct(l) && x !in l ==> Distinct(With(l, k, x))
  {
    var m := With(l, k, x);
    assert m[k] == x;
    forall i | i in l ensures i in m {
      var j :| 0 <= j < |l| && l[j] == i;
      assert m[if j < k then j else j + 1] == i;
    }
  }

  lemma Within(t: seq<Timer>, l: seq<int>, k: nat)
    requires Links(t, l) && k < |l|
    ensures 0 <= l[k] < |t| && t[l[k]].next == At(l, k + 1) && LinkedAt(t, l, k)
  {
    assert LinkedAt(t, l, k);
  }

  /** Taking element k out of the list. */
  lemma RemoveAt(t: seq<Timer>, u: seq<Timer>, head: int, l: seq<int>, k: nat)
    requires Chain(t, head, l) && k < |l| && |u| == |t| && 0 <= l[k] < |t|
    requires forall i :: 0 <= i < |t| && i != l[k] && i != At(l, k - 1) ==> u[i] == t[i]
    requires u[l[k]].time == t[l[k]].time && !u[l[k]].active
    requires k > 0 ==> 0 <= l[k - 1] < |t| && u[l[k - 1]] == t[l[k - 1]].(next := At(l, k + 1))
    ensures Chain(u, if k == 0 then At(l, 1) else head, Without(l, k))
    ensures forall i :: i in Without(l, k) <==> i in l && i != l[k]
  {
    var m := Without(l, k);
    WithoutHas(l, k);
    assert Links(u, m) by { RemoveLinks(t, u, l, k); }
    assert forall i :: TimeAt(u, i) == TimeAt(t, i);
  }

  lemma RemoveLinks(t: seq<Timer>, u: seq<Timer>, l: seq<int>, k: nat)
    requires Links(t, l) && Distinct(l) && k < |l| && |u| == |t|
    requires forall i :: 0 <= i < |t| && i != l[k] && i != At(l, k - 1) ==> u[i] == t[i]
    requires k > 0 ==> 0 <= l[k - 1] < |t| && u[l[k - 1]] == t[l[k - 1]].(next := At(l, k + 1))
    ensures Links(u, Without(l, k))
  {
    var m := Without(l, k);
    forall j | 0 <= j < |m| ensures LinkedAt(u, m, j) { Within(t, l, if j < k then j else j + 1); }
  }

  /** Putting a timer that is not in the list before element k. */
  lemma InsertAt(t: seq<Timer>, u: seq<Timer>, head: int, l: seq<int>, k: nat, x: nat)
    requires Chain(t, head, l) && k <= |l| && |u| == |t| && x < |t| && x !in l
    requires forall i :: 0 <= i < |t| && i != x && i != At(l, k - 1) ==> u[i] == t[i]
    requires u[x].active && u[x].next == At(l, k)
    requires k > 0 ==> 0 <= l[k - 1] < |t| && u[l[k - 1]] == t[l[k - 1]].(next := x)
    requires forall i :: 0 <= i < k ==> TimeAt(t, l[i]) <= u[x].time
    requires forall i :: k <= i < |l| ==> u[x].time <= TimeAt(t, l[i])
    ensures Chain(u, if k == 0 then x as int else head, With(l, k, x))
  {
    var m := With(l, k, x);
    WithHas(l, k, x);
    assert Links(u, m) by { InsertLinks(t, u, l, k, x); }
    assert forall i :: i != x ==> TimeAt(u, i) == TimeAt(t, i);
    forall i | 0 <= i < |u| ensures u[i].active <==> i in m { if k > 0 && i == l[k - 1] { assert i in l; } }
  }

  lemma InsertLinks(t: seq<Timer>, u: seq<Timer>, l: seq<int>, k: nat, x: nat)
    requires Links(t, l) && Distinct(l) && k <= |l| && |u| == |t| && x < |t| && x !in l
    requires forall i :: 0 <= i < |t| && i != x && i != At(l, k - 1) ==> u[i] == t[i]
    requires u[x].next == At(l, k)
    requires k > 0 ==> 0 <= l[k - 1] < |t| && u[l[k - 1]] == t[l[k - 1]].(next := x)
    ensures Links(u, With(l, k, x))
  {
    var m := With(l, k, x);
    forall j | 0 <= j < |m| ensures LinkedAt(u, m, j) { if j != k { Within(t, l, if j < k then j else j - 1); } }
  }

  class Clock {
    const timers: array<Timer>
    var timer_chain: int
    var next_timeout: nat
    var clck_call_expire: bool
    /** When the clock task is going to send its next alarm; 0 if it is not. */
    var alarm: nat
    ghost var chain: seq<int>

    ghost predicate Listed()
      reads this, timers
    {
      Chain(timers[..], timer_chain, chain) && alarm == next_timeout
    }

    /** While there are timers, either they are about to be looked at, or an alarm comes in time for the first one. */
    ghost predicate Watched()
      reads this, timers
    {
      chain == [] || clck_call_expire || 0 < alarm <= TimeAt(timers[..], chain[0])
    }

    ghost predicate Valid()
      reads this, timers
    {
      Listed() && Watched()
    }

    constructor (nr: nat)
      ensures Valid() && chain == [] && fresh(timers) && timers.Length == nr
    {
      timers := new Timer[nr](_ => Timer(NIL, 0, false));
      timer_chain, next_timeout, clck_call_expire, alarm, chain := NIL, 0, false, 0, [];
    }

    /** set_timer: looks at the first timer, and has it looked at again or an alarm sent. */
    method SetTimer(curr_time: nat)
      requires Listed()
      modifies this`next_timeout, this`clck_call_expire, this`alarm
      ensures Valid() && (old(clck_call_expire) ==> clck_call_expire)
      ensures chain != [] && TimeAt(timers[..], chain[0]) <= curr_time ==> clck_call_expire
    {
      HeadListed(timers[..], timer_chain, chain);
      if timer_chain == NIL {
        NoneListed(timers[..], timer_chain, chain);
        return;
      }
      var new_time := timers[timer_chain].time;
      if new_time <= curr_time {
        clck_call_expire := true;
        return;
      }
      if next_timeout == 0 || new_time < next_timeout {
        next_timeout := new_time;
        alarm := curr_time + (new_time - curr_time);
      }
    }

    /** clck_tick: the alarm has come. */
    method Tick(curr_time: nat)
      requires Listed() && alarm != 0
      modifies this`next_timeout, this`clck_call_expire, this`alarm
      ensures Valid()
    {
      alarm := 0;
      next_timeout := 0;
      SetTimer(curr_time);
    }

    /** clck_fast_release: a timer is taken out of the list if it is there. */
    method FastRelease(timer: nat)
      requires Listed() && timer < timers.Length
      modifies this`timer_chain, this`chain, timers
      ensures Listed() && timer !in chain && timers[timer].time == old(timers[timer].time)
      ensures !old(timers[timer].active) ==> timers[..] == old(timers[..]) && chain == old(chain)
      ensures old(timers[timer].active) ==> exists k :: 0 <= k < |old(chain)| && old(chain)[k] == timer && chain == Without(old(chain), k)
      ensures forall i :: 0 <= i < timers.Length ==> timers[i].time == old(timers[..])[i].time
      ensures forall i :: i in chain <==> i in old(chain) && i != timer
    {
      hide InOrder, Distinct;
      if !timers[timer].active { return; }
      ghost var t, l := timers[..], chain;
      ghost var k := 0;
      assert timer in l;
      Within(t, l, 0);
      if timer == timer_chain {
        timer_chain := timers[timer_chain].next;
      } else {
        var timer_index := timer_chain;
        k := 1;
        NotLast(l, 0, timer);
        while timers[timer_index].next != timer
          invariant 1 <= k < |l| && timer_index == l[k - 1] && 0 <= timer_index < timers.Length && timers[..] == t
          invariant timers[timer_index].next == l[k] && forall j :: 0 <= j < k ==> l[j] != timer
          invariant timer_chain == At(l, 0) && chain == l
          decreases |l| - k
        {
          Within(t, l, k);
          NotLast(l, k, timer);
          timer_index := timers[timer_index].next;
          k := k + 1;
        }
        Within(t, l, k);
        timers[timer_index] := timers[timer_index].(next := timers[timer].next);
      }
      timers[timer] := timers[timer].(active := false);
      chain := Without(l, k);
      RemoveAt(t, timers[..], At(l, 0), l, k);
    }

    /** clck_timer: a timer is set, anew if it was set already. */
    method SetClock(timer: nat, timeout: nat, curr_time: nat)
      requires Listed() && timer < timers.Length
      modifies this, timers
      ensures Valid() && timers[timer].time == timeout && (old(clck_call_expire) ==> clck_call_expire)
      ensures forall i :: 0 <= i < timers.Length && i != timer ==> timers[i].time == old(timers[..])[i].time
      ensures forall i :: i in chain <==> i in old(chain) || i == timer
    {
      if timers[timer].active { FastRelease(timer); }
      Insert(timer, timeout);
      HeadListed(timers[..], timer_chain, chain);
      if next_timeout == 0 || timers[timer_chain].time < next_timeout { SetTimer(curr_time); }
    }

    /** clck_timer: the timer goes before the first one that is not earlier, but not before an equally late first one. */
    method Insert(timer: nat, timeout: nat)
      requires Listed() && timer < timers.Length && timer !in chain
      modifies this`timer_chain, this`chain, timers
      ensures Listed() && timers[timer].time == timeout && chain != []
      ensures forall i :: 0 <= i < timers.Length && i != timer ==> timers[i].time == old(timers[..])[i].time
      ensures forall i :: i in chain <==> i in old(chain) || i == timer
    {
      hide InOrder, Distinct;
      ghost var t, l, head := timers[..], chain, timer_chain;
      ghost var k := 0;
      HeadListed(t, head, l);
      AllListed(t, head, l);
      timers[timer] := Timer(NIL, timeout, true);
      if timer_chain == NIL {
        NoneListed(t, head, l);
        timer_chain := timer;
      } else if timeout < timers[timer_chain].time {
        Before(t, l, 0, timeout);
        timers[timer] := timers[timer].(next := timer_chain);
        timer_chain := timer;
      } else {
        k := FindPlace(timer, timeout, t, l);
      }
      chain := With(l, k, timer);
      InsertAt(t, timers[..], head, l, k, timer);
      WithHas(l, k, timer);
    }

    /** clck_timer: the search for the place of a timer, behind the first one. */
    method FindPlace(timer: nat, timeout: nat, ghost t: seq<Timer>, ghost l: seq<int>) returns (ghost k: nat)
      requires timer < timers.Length && Chain(t, timer_chain, l) && timer !in l && l != [] && TimeAt(t, l[0]) <= timeout
      requires |t| == timers.Length && timers[..] == t[timer := Timer(NIL, timeout, true)]
      modifies timers
      ensures 1 <= k <= |l| && 0 <= l[k - 1] < timers.Length
      ensures timers[..] == t[timer := Timer(At(l, k), timeout, true)][l[k - 1] := t[l[k - 1]].(next := timer)]
      ensures forall i :: 0 <= i < k ==> TimeAt(t, l[i]) <= timeout
      ensures forall i :: k <= i < |l| ==> timeout <= TimeAt(t, l[i])
    {
      hide InOrder, Distinct;
      Within(t, l, 0);
      var timer_index := timer_chain;
      k := 1;
      if 1 < |l| { Within(t, l, 1); }
      while timers[timer_index].next != NIL && timers[timers[timer_index].next].time < timeout
        invariant 1 <= k <= |l| && timer_index == l[k - 1] && timer_index != timer && 0 <= timer_index < timers.Length
        invariant timers[..] == t[timer := Timer(NIL, timeout, true)] && t[timer_index].next == At(l, k)
        invariant At(l, k) != NIL ==> k < |l| && 0 <= l[k] < timers.Length && l[k] != timer
        invariant forall j :: 0 <= j < k ==> TimeAt(t, l[j]) <= timeout
        decreases |l| - k
      {
        Within(t, l, k);
        if k + 1 < |l| { Within(t, l, k + 1); }
        timer_index := timers[timer_index].next;
        k := k + 1;
      }
      if k < |l| { Within(t, l, k); Before(t, l, k, timeout); }
      timers[timer] := timers[timer].(next := timers[timer_index].next);
      timers[timer_index] := timers[timer_index].(next := timer);
    }

    /** clck_untimer: a timer is cancelled. */
    method Untimer(timer: nat, curr_time: nat)
      requires Listed() && timer < timers.Length
      modifies this, timers
      ensures Valid() && (old(clck_call_expire) ==> clck_call_expire)
      ensures forall i :: 0 <= i < timers.Length ==> timers[i].time == old(timers[..])[i].time
      ensures forall i :: i in chain <==> i in old(chain) && i != timer
    {
      FastRelease(timer);
      SetTimer(curr_time);
    }

    /** Which timers are set, and for when. */
    ghost function Pending(): map<int, nat>
      reads this, timers
    {
      PendingOf(timers[..], chain)
    }

    /** The function of an expired timer. */
    method Call(actions: seq<Action>, curr_time: nat)
      requires Listed() && forall n :: 0 <= n < |actions| ==> actions[n].timer < timers.Length
      modifies this, timers
      ensures Listed() && Pending() == AllDone(old(Pending()), actions)
    {
      hide Chain;
      ghost var p := Pending();
      for n := 0 to |actions|
        invariant Listed() && Pending() == AllDone(p, actions[..n])
      {
        InChain(timers[..], timer_chain, chain);
        ghost var q := Pending();
        match actions[n] {
          case Set(timer, timeout) => SetClock(timer, timeout, curr_time);
          case Cancel(timer) => Untimer(timer, curr_time);
        }
        InChain(timers[..], timer_chain, chain);
        assert Pending() == Done(q, actions[n]);
        assert actions[..n + 1][..n] == actions[..n] && actions[..n + 1][n] == actions[n];
      }
      assert actions[..|actions|] == actions;
    }

    /** clck_expire_timers: as long as one is due the earliest timer is taken out of the list and its function called, which may
        set timers for any time, also one that has passed; calls[n] is what the function of the n-th one does. */
    method ExpireTimers(curr_time: nat, calls: seq<seq<Action>>) returns (fired: seq<int>)
      requires Listed()
      requires forall n, m :: 0 <= n < |calls| && 0 <= m < |calls[n]| ==> calls[n][m].timer < timers.Length
      modifies this, timers
      ensures Valid() && Expires(old(Pending()), fired, calls, curr_time) && Pending() == Turn(old(Pending()), fired, calls, |fired|)
    {
      hide Chain, Turn, PendingOf, Earliest;
      ghost var p := Pending();
      clck_call_expire := false;
      fired := [];
      HeadListed(timers[..], timer_chain, chain);
      TurnNone(p, calls);
      if timer_chain == NIL {
        NoneDue(timers[..], timer_chain, chain, curr_time);
        return;
      }
      while timer_chain != NIL && timers[timer_chain].time <= curr_time
        invariant Listed() && (timer_chain != NIL ==> 0 <= timer_chain < timers.Length)
        invariant Pending() == Turn(p, fired, calls, |fired|)
        invariant forall k :: 0 <= k < |fired| ==> Earliest(Turn(p, fired, calls, k), fired[k], curr_time)
        decreases if |fired| < |calls| then |calls| - |fired| else 0, |Pending()|
      {
        ghost var f := fired;
        var timer_index := Pop(curr_time);
        var actions := if |fired| < |calls| then calls[|fired|] else [];
        Call(actions, curr_time);
        fired := fired + [timer_index];
        TurnNext(p, f, timer_index, calls, curr_time);
        HeadListed(timers[..], timer_chain, chain);
      }
      NoneDue(timers[..], timer_chain, chain, curr_time);
      SetTimer(curr_time);
    }

    /** clck_expire_timers: the first timer, which is due, is taken out of the list. */
    method Pop(curr_time: nat) returns (timer_index: nat)
      requires Listed() && 0 <= timer_chain < timers.Length && timers[timer_chain].time <= curr_time
      modifies this`timer_chain, this`chain, timers
      ensures Listed() && timer_index == old(timer_chain) && Earliest(old(Pending()), timer_index, curr_time)
      ensures Pending() == old(Pending()) - {timer_index as int} && |Pending()| < |old(Pending())|
    {
      hide Earliest, PendingOf, InOrder, Distinct;
      ghost var t, l := timers[..], chain;
      HeadListed(t, timer_chain, l);
      Within(t, l, 0);
      EarliestFirst(t, timer_chain, l, curr_time);
      timers[timer_chain] := timers[timer_chain].(active := false);
      timer_index := timer_chain;
      timer_chain := timers[timer_chain].next;
      chain := Without(l, 0);
      RemoveAt(t, timers[..], At(l, 0), l, 0);
      PendingWithout(t, timers[..], l, chain, timer_index);
      EarliestIn(PendingOf(t, l), timer_index, curr_time);
      Fewer(PendingOf(t, l), timer_index);
    }
  }

  ghost function PendingOf(t: seq<Timer>, l: seq<int>): map<int, nat> {
    map i | i in l && 0 <= i < |t| :: t[i].time
  }

  /** The first timer of the list is the earliest. */
  lemma EarliestFirst(t: seq<Timer>, head: int, l: seq<int>, curr_time: nat)
    requires Chain(t, head, l) && head != NIL && 0 <= head < |t| && t[head].time <= curr_time
    ensures Earliest(PendingOf(t, l), head, curr_time)
  {
    HeadListed(t, head, l);
    FirstIsFirst(t, l);
  }

  lemma EarliestIn(p: map<int, nat>, x: int, curr_time: nat)
    requires Earliest(p, x, curr_time)
    ensures x in p
  {
  }

  lemma PendingWithout(t: seq<Timer>, u: seq<Timer>, l: seq<int>, m: seq<int>, x: int)
    requires |u| == |t| && (forall i :: 0 <= i < |t| ==> u[i].time == t[i].time) && forall i :: i in m <==> i in l && i != x
    ensures PendingOf(u, m) == PendingOf(t, l) - {x}
  {
  }

  function TimeOf(p: map<int, nat>, i: int): nat {
    if i in p then p[i] else 0
  }

  function Done(p: map<int, nat>, a: Action): map<int, nat> {
    match a
    case Set(timer, timeout) => p[timer := timeout]
    case Cancel(timer) => p - {timer}
  }

  function AllDone(p: map<int, nat>, actions: seq<Action>): map<int, nat> {
    if actions == [] then p else Done(AllDone(p, actions[..|actions| - 1]), actions[|actions| - 1])
  }

  /** What is set when so many timers have fired. */
  function Turn(p: map<int, nat>, fired: seq<int>, calls: seq<seq<Action>>, k: nat): map<int, nat>
    requires k <= |fired|
  {
    if k == 0 then p else AllDone(Turn(p, fired, calls, k - 1) - {fired[k - 1]}, if k <= |calls| then calls[k - 1] else [])
  }

  /** Timer x is due, and no other is earlier. */
  predicate Earliest(p: map<int, nat>, x: int, curr_time: nat) {
    x in p && p[x] <= curr_time && forall i :: i in p ==> p[x] <= p[i]
  }

  /** At each turn the earliest timer fires, until none is due. */
  predicate Expires(p: map<int, nat>, fired: seq<int>, calls: seq<seq<Action>>, curr_time: nat) {
    && (forall k :: 0 <= k < |fired| ==> Earliest(Turn(p, fired, calls, k), fired[k], curr_time))
    && forall i :: i in Turn(p, fired, calls, |fired|) ==> Turn(p, fired, calls, |fired|)[i] > curr_time
  }

  lemma {:induction false} TurnPrefix(p: map<int, nat>, fired: seq<int>, x: int, calls: seq<seq<Action>>, k: nat)
    requires k <= |fired|
    ensures Turn(p, fired + [x], calls, k) == Turn(p, fired, calls, k)
  {
    if k > 0 { TurnPrefix(p, fired, x, calls, k - 1); }
  }

  lemma TurnNone(p: map<int, nat>, calls: seq<seq<Action>>)
    ensures Turn(p, [], calls, 0) == p
  {
  }

  lemma TurnStep(p: map<int, nat>, fired: seq<int>, calls: seq<seq<Action>>, k: nat)
    requires k < |fired|
    ensures Turn(p, fired, calls, k + 1) == AllDone(Turn(p, fired, calls, k) - {fired[k]}, if k < |calls| then calls[k] else [])
  {
  }

  /** One more turn. */
  lemma TurnNext(p: map<int, nat>, fired: seq<int>, x: int, calls: seq<seq<Action>>, curr_time: nat)
    requires forall k :: 0 <= k < |fired| ==> Earliest(Turn(p, fired, calls, k), fired[k], curr_time)
    requires Earliest(Turn(p, fired, calls, |fired|), x, curr_time)
    ensures var f := fired + [x];
      && (forall k :: 0 <= k < |f| ==> Earliest(Turn(p, f, calls, k), f[k], curr_time))
      && Turn(p, f, calls, |f|) ==
           AllDone(Turn(p, fired, calls, |fired|) - {x}, if |fired| < |calls| then calls[|fired|] else [])
  {
    hide Earliest, AllDone, Turn;
    var f := fired + [x];
    TurnStep(p, f, calls, |fired|);
    forall k | 0 <= k <= |fired| ensures Turn(p, f, calls, k) == Turn(p, fired, calls, k) { TurnPrefix(p, fired, x, calls, k); }
  }

  lemma Fewer(p: map<int, nat>, x: int)
    requires x in p
    ensures |p - {x}| < |p|
  {
    var q := p - {x};
    assert p.Keys == q.Keys + {x} && |p.Keys| == |p| && |q.Keys| == |q|;
  }

  lemma InChain(t: seq<Timer>, head: int, l: seq<int>)
    requires Chain(t, head, l)
    ensures forall i :: i in l ==> 0 <= i < |t|
  {
    AllListed(t, head, l);
  }

  // ----- functions that set timers for a time to come

  /** An action that sets a timer for a time to come. */
  predicate Later(a: Action, curr_time: nat) {
    a.Set? ==> a.timeout > curr_time
  }

  ghost function Touched(actions: seq<Action>): set<int> {
    set n | 0 <= n < |actions| :: actions[n].timer as int
  }

  function DueIn(p: map<int, nat>, curr_time: nat): set<int> {
    set i | i in p && p[i] <= curr_time
  }

  lemma TouchedNone()
    ensures Touched([]) == {}
  {
  }

  lemma TouchedNext(actions: seq<Action>, n: nat)
    requires |actions| == n + 1
    ensures Touched(actions) == Touched(actions[..n]) + {actions[n].timer as int}
  {
    var s, t := Touched(actions), Touched(actions[..n]);
    forall i | i in t ensures i in s {
      var m :| 0 <= m < n && actions[..n][m].timer as int == i;
      assert actions[m].timer as int == i;
    }
    forall i | i in s ensures i in t || i == actions[n].timer {
      var m :| 0 <= m < n + 1 && actions[m].timer as int == i;
      if m < n { assert actions[..n][m].timer as int == i; }
    }
  }

  lemma DoneOne(p: map<int, nat>, a: Action, curr_time: nat)
    requires Later(a, curr_time)
    ensures DueIn(Done(p, a), curr_time) == DueIn(p, curr_time) - {a.timer as int}
    ensures forall i :: i in DueIn(Done(p, a), curr_time) ==> Done(p, a)[i] == p[i]
  {
  }

  lemma {:induction false} DoneLater(p: map<int, nat>, actions: seq<Action>, curr_time: nat)
    requires forall n :: 0 <= n < |actions| ==> Later(actions[n], curr_time)
    ensures DueIn(AllDone(p, actions), curr_time) == DueIn(p, curr_time) - Touched(actions)
    ensures forall i :: i in DueIn(AllDone(p, actions), curr_time) ==> AllDone(p, actions)[i] == p[i]
  {
    hide Touched, Done;
    if actions == [] {
      TouchedNone();
    } else {
      var n := |actions| - 1;
      DoneLater(p, actions[..n], curr_time);
      DoneOne(AllDone(p, actions[..n]), actions[n], curr_time);
      TouchedNext(actions, n);
    }
  }

  /** What has expired so far, and what is left of what was due. */
  ghost predicate Expired(p: map<int, nat>, due: set<int>, fired: seq<int>, left: set<int>, calls: seq<seq<Action>>) {
    && (forall i :: i in due ==> i in p) && left <= due
    && (forall i :: i in fired ==> i in due && i !in left)
    && (forall i, j :: 0 <= i < j < |fired| ==> fired[i] != fired[j] && TimeOf(p, fired[i]) <= TimeOf(p, fired[j]))
    && (forall i, j :: i in fired && j in left ==> TimeOf(p, i) <= TimeOf(p, j))
    && (forall i :: i in due ==> i in left || i in fired || Stopped(i, fired, calls))
    && (forall i :: i in left || i in fired ==> !Stopped(i, fired, calls))
  }

  /** The function of a timer that has expired has set or cancelled timer i before it was its turn. */
  ghost predicate Stopped(i: int, fired: seq<int>, calls: seq<seq<Action>>) {
    exists n {:trigger StoppedAt(i, fired, calls, n)} :: StoppedAt(i, fired, calls, n)
  }

  ghost predicate StoppedAt(i: int, fired: seq<int>, calls: seq<seq<Action>>, n: int) {
    0 <= n < |fired| && n < |calls| && i in Touched(calls[n]) && i !in fired[..n + 1]
  }

  lemma ExpiredOne(p: map<int, nat>, due: set<int>, fired: seq<int>, now: set<int>, x: int, left: set<int>,
                   calls: seq<seq<Action>>, actions: seq<Action>)
    requires Expired(p, due, fired, now, calls) && x in now && forall i :: i in now ==> TimeOf(p, x) <= TimeOf(p, i)
    requires actions == if |fired| < |calls| then calls[|fired|] else []
    requires left == now - {x} - Touched(actions)
    ensures Expired(p, due, fired + [x], left, calls)
  {
    var f := fired + [x];
    assert f[|fired|] == x;
    forall i, n ensures StoppedAt(i, f, calls, n) <==>
      if n == |fired| then n < |calls| && i in Touched(actions) && i !in f else StoppedAt(i, fired, calls, n)
    {
      if 0 <= n < |fired| { assert f[..n + 1] == fired[..n + 1]; }
      if n == |fired| { assert f[..n + 1] == f; }
    }
    forall i | i in due ensures i in left || i in f || Stopped(i, f, calls) {
      if i in fired {
        assert i in f;
      } else if i in now && i != x && i !in left {
        assert StoppedAt(i, f, calls, |fired|);
      } else if i !in now {
        var n :| StoppedAt(i, fired, calls, n);
        assert StoppedAt(i, f, calls, n);
      }
    }
    forall i | i in left || i in f ensures !Stopped(i, f, calls) {
      if n :| StoppedAt(i, f, calls, n) {
        assert i in f || i in left;
        if n != |fired| { assert StoppedAt(i, fired, calls, n) && Stopped(i, fired, calls); }
      }
    }
  }

  /** What is due of p is due at the time p says. */
  ghost predicate AsSet(p: map<int, nat>, now: map<int, nat>, curr_time: nat) {
    forall i :: i in DueIn(now, curr_time) ==> i in p && now[i] == p[i]
  }

  /** What is due after a turn. */
  lemma DueTurn(p: map<int, nat>, now: map<int, nat>, x: int, actions: seq<Action>, curr_time: nat)
    requires AsSet(p, now, curr_time) && Earliest(now, x, curr_time) && forall m :: 0 <= m < |actions| ==> Later(actions[m], curr_time)
    ensures x in DueIn(now, curr_time) && forall i :: i in DueIn(now, curr_time) ==> TimeOf(p, x) <= TimeOf(p, i)
    ensures DueIn(AllDone(now - {x}, actions), curr_time) == DueIn(now, curr_time) - {x} - Touched(actions)
    ensures AsSet(p, AllDone(now - {x}, actions), curr_time)
  {
    hide Touched, AllDone;
    DoneLater(now - {x}, actions, curr_time);
    assert DueIn(now - {x}, curr_time) == DueIn(now, curr_time) - {x};
  }

  lemma {:induction false} ExpiredSome(p: map<int, nat>, fired: seq<int>, calls: seq<seq<Action>>, curr_time: nat, k: nat)
    requires k <= |fired| && forall j :: 0 <= j < k ==> Earliest(Turn(p, fired, calls, j), fired[j], curr_time)
    requires forall n, m :: 0 <= n < |calls| && 0 <= m < |calls[n]| ==> Later(calls[n][m], curr_time)
    ensures Expired(p, DueIn(p, curr_time), fired[..k], DueIn(Turn(p, fired, calls, k), curr_time), calls)
    ensures AsSet(p, Turn(p, fired, calls, k), curr_time)
  {
    hide Expired, Touched, AllDone, Turn, Earliest, Later, DueIn, AsSet;
    if k == 0 {
      TurnZero(p, fired, calls, curr_time);
      NoneExpired(p, curr_time, calls);
    } else {
      ExpiredSome(p, fired, calls, curr_time, k - 1);
      var now, x := Turn(p, fired, calls, k - 1), fired[k - 1];
      var actions := if k <= |calls| then calls[k - 1] else [];
      assert Earliest(now, x, curr_time);
      DueTurn(p, now, x, actions, curr_time);
      TurnStep(p, fired, calls, k - 1);
      assert fired[..k] == fired[..k - 1] + [x];
      ExpiredOne(p, DueIn(p, curr_time), fired[..k - 1], DueIn(now, curr_time), x, DueIn(Turn(p, fired, calls, k), curr_time), calls, actions);
    }
  }

  lemma TurnZero(p: map<int, nat>, fired: seq<int>, calls: seq<seq<Action>>, curr_time: nat)
    ensures Turn(p, fired, calls, 0) == p && AsSet(p, p, curr_time)
  {
  }

  lemma NoneExpired(p: map<int, nat>, curr_time: nat, calls: seq<seq<Action>>)
    ensures Expired(p, DueIn(p, curr_time), [], DueIn(p, curr_time), calls)
  {
  }

  lemma NoneLeft(p: map<int, nat>, curr_time: nat)
    requires forall i :: i in p ==> p[i] > curr_time
    ensures DueIn(p, curr_time) == {}
  {
    forall i ensures i !in DueIn(p, curr_time) {}
  }

  /** If functions set timers only for a time to come, each timer that is due fires once, in order of time, unless the function of
      an earlier one has set or cancelled it before its turn. */
  lemma EachOnce(p: map<int, nat>, fired: seq<int>, calls: seq<seq<Action>>, curr_time: nat)
    requires Expires(p, fired, calls, curr_time)
    requires forall n, m :: 0 <= n < |calls| && 0 <= m < |calls[n]| ==> Later(calls[n][m], curr_time)
    ensures forall i :: i in fired ==> i in DueIn(p, curr_time)
    ensures forall i, j :: 0 <= i < j < |fired| ==> fired[i] != fired[j] && TimeOf(p, fired[i]) <= TimeOf(p, fired[j])
    ensures forall i :: i in DueIn(p, curr_time) ==> (i in fired <==> !Stopped(i, fired, calls))
  {
    hide Turn, Stopped;
    ExpiredSome(p, fired, calls, curr_time, |fired|);
    assert fired[..|fired|] == fired;
    NoneLeft(Turn(p, fired, calls, |fired|), curr_time);
    assert DueIn(Turn(p, fired, calls, |fired|), curr_time) == {};
  }

  lemma NoneListed(t: seq<Timer>, head: int, l: seq<int>)
    requires Chain(t, head, l) && head == NIL
    ensures l == []
  {
    assert l != [] ==> LinkedAt(t, l, 0);
  }

  lemma AllListed(t: seq<Timer>, head: int, l: seq<int>)
    requires Chain(t, head, l)
    ensures forall k :: 0 <= k < |l| ==> 0 <= l[k] < |t|
  {
    forall k | 0 <= k < |l| ensures 0 <= l[k] < |t| { Within(t, l, k); }
  }

  lemma Before(t: seq<Timer>, l: seq<int>, k: nat, timeout: nat)
    requires InOrder(t, l) && k < |l| && timeout <= TimeAt(t, l[k])
    ensures forall i :: k <= i < |l| ==> timeout <= TimeAt(t, l[i])
  {
  }

  lemma HeadListed(t: seq<Timer>, head: int, l: seq<int>)
    requires Chain(t, head, l)
    ensures head != NIL ==> 0 <= head < |t| && l != [] && head == l[0]
    ensures l != [] ==> head != NIL
  {
    if l != [] { assert LinkedAt(t, l, 0); }
  }

  lemma NoneDue(t: seq<Timer>, head: int, l: seq<int>, curr_time: nat)
    requires Chain(t, head, l) && (head != NIL ==> 0 <= head < |t| && t[head].time > curr_time)
    ensures forall i :: i in PendingOf(t, l) ==> PendingOf(t, l)[i] > curr_time
    ensures head == NIL ==> l == []
  {
    HeadListed(t, head, l);
    if head == NIL { NoneListed(t, head, l); } else { FirstIsFirst(t, l); }
  }

  lemma FirstIsFirst(t: seq<Timer>, l: seq<int>)
    requires InOrder(t, l) && l != []
    ensures forall i :: i in l ==> TimeAt(t, l[0]) <= TimeAt(t, i)
  {
  }

  lemma NotLast(l: seq<int>, k: nat, x: int)
    requires k < |l| && x in l && forall j :: 0 <= j <= k ==> l[j] != x
    ensures k + 1 < |l|
  {
  }
}
