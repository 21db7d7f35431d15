// The ring of background tasks, and the turn that the main loop takes through it.
module Tasks {
  import opened Words

  class Task {
    var next: Task?
    var time: int
    const safe: bool

    constructor (safe: bool, time: int)
      ensures this.safe == safe && this.time == time
    {
      this.safe, this.time, next := safe, time, null;
    }
  }

  predicate NoDuplicates<T(==)>(s: seq<T>) {
    forall i, j :: 0 <= i < j < |s| ==> s[i] != s[j]
  }

  function Without<T>(s: seq<T>, k: nat): seq<T>
    requires k < |s|
  {
    s[..k] + s[k + 1..]
  }

  function Filtered<T(==)>(s: seq<T>, x: T): (r: seq<T>)
    ensures forall i :: 0 <= i < |r| ==> r[i] in s && r[i] != x
    ensures forall i :: 0 <= i < |s| && s[i] != x ==> s[i] in r
  {
    if s == [] then [] else if s[0] == x then Filtered(s[1..], x) else [s[0]] + Filtered(s[1..], x)
  }

  // A ring without one of its tasks; the last one stays.
  function Dropped<T(==)>(s: seq<T>, x: T): (r: seq<T>)
    ensures forall i :: 0 <= i < |r| ==> r[i] in s
    ensures s != [] && NoDuplicates(s) ==> r != []
  {
    assert |s| > 1 && NoDuplicates(s) ==> s[0] != s[1] && s[0] in s && s[1] in s;
    if |s| == 1 then s else Filtered(s, x)
  }

  lemma {:induction false} FilteredNone<T>(s: seq<T>, x: T)
    requires x !in s
    ensures Filtered(s, x) == s
  {
    if s != [] {
      FilteredNone(s[1..], x);
    }
  }

  lemma {:induction false} FilteredOne<T>(s: seq<T>, x: T, k: nat)
    requires NoDuplicates(s) && k < |s| && s[k] == x
    ensures Filtered(s, x) == Without(s, k)
  {
    if k == 0 {
      FilteredNone(s[1..], x);
      assert Without(s, 0) == s[1..];
    } else {
      FilteredOne(s[1..], x, k - 1);
      assert Without(s, k) == [s[0]] + Without(s[1..], k - 1);
    }
  }

  function Rotated<T>(s: seq<T>): seq<T>
    requires s != []
  {
    s[1..] + [s[0]]
  }

  // What a task's handler may do to the ring and its tasks while it runs, any number of times;
  // and whether it comes to its end, or traps.
  datatype Action = Installs(task: Task) | Removes(task: Task) | Puts(task: Task, time: int)
  datatype Work = Work(acts: seq<Action>, traps: bool)

  function Acted(s: seq<Task>, act: Action): seq<Task> {
    match act
    case Installs(t) => if t in s then s else s + [t]
    case Removes(t) => Dropped(s, t)
    case Puts(_, _) => s
  }

  // When task `t` is due after that, if it was at `time`.
  function TimeAfter(t: Task, acts: seq<Action>, time: int): int {
    if acts == [] then time else
      match acts[|acts| - 1]
      case Puts(u, v) => if u == t then v else TimeAfter(t, acts[..|acts| - 1], time)
      case _ => TimeAfter(t, acts[..|acts| - 1], time)
  }

  function ActedAll(s: seq<Task>, acts: seq<Action>): seq<Task> {
    if acts == [] then s else Acted(ActedAll(s, acts[..|acts| - 1]), acts[|acts| - 1])
  }

  function TasksOf(acts: seq<Action>): (ts: set<Task>)
    ensures forall a :: a in acts ==> a.task in ts
  {
    set a | a in acts :: a.task
  }

  // The ring once `cur`, the last to have its turn, has been dealt with.
  function Left(s: seq<Task>, cur: Task?): (r: seq<Task>)
    ensures forall i :: 0 <= i < |r| ==> r[i] in s
    ensures s != [] && NoDuplicates(s) ==> r != []
  {
    if cur == null then s else
      var t: Task := cur;
      if t.safe then s else Dropped(s, t)
  }

  class Scheduler {
    var NextTask: Task?
    var CurTask: Task?
    ghost var ring: seq<Task>       // every installed task once, in order, from NextTask on

    ghost predicate Valid()
      reads this, ring
    {
      && ring != [] && NextTask == ring[0] && NoDuplicates(ring)
      && (forall i :: 0 <= i < |ring| - 1 ==> ring[i].next == ring[i + 1])
      && ring[|ring| - 1].next == ring[0]
    }

    // The collector's task is there from the start.
    constructor ()
      ensures Valid() && fresh(ring) && |ring| == 1 && ring[0].safe && ring[0].time == 0 && CurTask == null
    {
      var t := new Task(true, 0);
      NextTask, CurTask, ring := t, null, [t];
      new;
      t.next := t;
    }

    // The last task whose successor is either the start of the ring or `T`.
    method Before(T: Task) returns (t: Task, ghost i: nat)
      requires Valid()
      ensures i < |ring| && t == ring[i]
      ensures T in ring ==> t.next == T
      ensures T !in ring ==> i == |ring| - 1
      ensures T in ring ==> T == ring[if i + 1 < |ring| then i + 1 else 0]
    {
      t, i := NextTask, 0;
      while t.next != NextTask && t.next != T
        invariant i < |ring| && t == ring[i] && forall j :: 1 <= j <= i ==> ring[j] != T
        decreases |ring| - i
      {
        assert i < |ring| - 1 ==> ring[i].next == ring[i + 1];
        t, i := t.next, i + 1;
      }
      assert i < |ring| - 1 ==> ring[i].next == ring[i + 1];
    }

    // Put `T` just before NextTask, unless it is in the ring.
    method Install(T: Task)
      requires Valid()
      modifies `ring, ring`next, T`next
      ensures Valid() && NextTask == old(NextTask)
      ensures ring == if T in old(ring) then old(ring) else old(ring) + [T]
    {
      var t, i := Before(T);
      if t.next != T {
        T.next := t.next;
        t.next := T;
        ring := ring + [T];
      }
    }

    // Take `T` out; the last task stays.
    method Remove(T: Task)
      requires Valid()
      modifies `NextTask, `ring, ring`next
      ensures Valid() && ring == Dropped(old(ring), T)
    {
      hide Filtered;
      var t, i := Before(T);
      if t.next == T {
        ghost var k := if i + 1 < |ring| then i + 1 else 0;
        FilteredOne(ring, T, k);
        Unlink(t, T, i, k);
      } else {
        FilteredNone(ring, T);
      }
    }

    method Unlink(t: Task, T: Task, ghost i: nat, ghost k: nat)
      requires Valid() && i < |ring| && t == ring[i] && k == (if i + 1 < |ring| then i + 1 else 0) && T == ring[k]
      requires t.next == T
      modifies `NextTask, `ring, ring`next
      ensures Valid() && ring == if |old(ring)| == 1 then old(ring) else Without(old(ring), k)
    {
      t.next := t.next.next;
      if NextTask == T {
        NextTask := NextTask.next;
      }
      if |ring| > 1 {
        ring := Without(ring, k);
      }
    }

    // A task that was not through with its turn is taken out, unless it is safe.
    method Purge()
      requires Valid()
      modifies `NextTask, `ring, ring`next
      ensures Valid()
      ensures CurTask == old(CurTask) && ring == Left(old(ring), CurTask)
    {
      if CurTask != null && !CurTask.safe {
        Remove(CurTask);
      }
    }

    method Rotate()
      requires Valid()
      modifies `NextTask, `CurTask, `ring
      ensures Valid() && CurTask == old(ring[0]) && ring == Rotated(old(ring))
    {
      CurTask := NextTask;
      NextTask := CurTask.next;
      assert |ring| > 1 ==> ring[0].next == ring[0 + 1];
      ring := Rotated(ring);
    }

    // What the handler of the current task does.
    method Handle(acts: seq<Action>)
      requires Valid()
      modifies `NextTask, `ring, ring`next, TasksOf(acts)`next, TasksOf(acts)`time
      ensures Valid() && ring == ActedAll(old(ring), acts)
      ensures forall i :: 0 <= i < |ring| ==> ring[i] in old(ring) || ring[i] in TasksOf(acts)
      ensures forall t :: t in old(ring) || t in TasksOf(acts) ==> t.time == TimeAfter(t, acts, old(t.time))
    {
      hide Filtered, Dropped, NoDuplicates;
      for i := 0 to |acts|
        invariant Valid() && ring == ActedAll(old(ring), acts[..i])
        invariant forall j :: 0 <= j < |ring| ==> ring[j] in old(ring) || ring[j] in TasksOf(acts)
        invariant forall t :: t in old(ring) || t in TasksOf(acts) ==> t.time == TimeAfter(t, acts[..i], old(t.time))
      {
        assert acts[i] in acts && acts[..i + 1][..i] == acts[..i];
        match acts[i] {
          case Installs(T) => Install(T);
          case Removes(T) => Remove(T);
          case Puts(T, time) => T.time := time;
        }
      }
      assert acts[..|acts|] == acts;
    }

    // The next task's turn: it is at the end of the ring while it runs. A trap leaves the rest of
    // the turn undone.
    method Turn(now: int, w: Work)
      requires Valid()
      modifies this, ring`next, TasksOf(w.acts)`next, TasksOf(w.acts)`time
      ensures Valid()
      ensures var p := Pass(old(ring[0].time) <= now, w); ring == NextRing(old(ring), p) && CurTask == NextCur(old(ring), p)
      ensures forall i :: 0 <= i < |ring| ==> ring[i] in old(ring) || ring[i] in TasksOf(w.acts)
      ensures forall t :: t in old(ring) || t in TasksOf(w.acts) ==>
        t.time == if old(ring[0].time) <= now then TimeAfter(t, w.acts, old(t.time)) else old(t.time)
    {
      hide Filtered, Dropped, NoDuplicates, ActedAll, TimeAfter;
      ghost var s := ring;
      Rotate();
      assert forall t :: t in s ==> t in ring by { RotatedHas(s); }
      if CurTask.time <= now {
        Handle(w.acts);
        if !w.traps {
          CurTask := null;
        }
      }
    }

    // One pass of the main loop; the tasks run when there is no input.
    method LoopProcess(idle: bool, now: int, w: Work)
      requires Valid()
      modifies this, ring`next, TasksOf(w.acts)`next, TasksOf(w.acts)`time
      ensures Valid()
      ensures var left := old(Left(ring, CurTask));
        var p := Pass(old(left[0].time) <= now, w);
        if !idle then ring == left && CurTask == old(CurTask)
        else ring == NextRing(left, p) && CurTask == NextCur(left, p)
      ensures forall i :: 0 <= i < |ring| ==> ring[i] in old(ring) || ring[i] in TasksOf(w.acts)
      ensures forall t :: t in old(ring) || t in TasksOf(w.acts) ==>
        t.time == if idle && old(Left(ring, CurTask)[0].time) <= now then TimeAfter(t, w.acts, old(t.time)) else old(t.time)
    {
      hide Filtered, Dropped, NoDuplicates, Rotated, ActedAll, TimeAfter, NextRing, NextCur;
      Purge();
      if idle {
        Turn(now, w);
        forall t | t in old(ring) && t !in TasksOf(w.acts) ensures TimeAfter(t, w.acts, old(t.time)) == old(t.time) {
          NotPut(t, w.acts, old(t.time));
        }
      }
    }

    // Idle passes on end, at the times `nows`, with what the handlers do in each; whose turn it
    // was, for when it was set then, and the passes this makes.
    method Idle(nows: seq<int>, ws: seq<Work>) returns (ghost visited: seq<Task>, ghost times: seq<int>, ghost ps: seq<Pass>)
      requires Valid() && |nows| == |ws|
      modifies this, ring`next, Concerned(ws)`next, Concerned(ws)`time
      ensures Valid() && |ps| == |visited| == |times| == |nows|
      ensures (visited, ring, CurTask) == Passes(old(ring), old(CurTask), ps)
      ensures forall i :: 0 <= i < |nows| ==> ps[i] == Pass(times[i] <= nows[i], ws[i])
      ensures forall i :: 0 <= i < |nows| ==> visited[i] in old(ring) || visited[i] in Concerned(ws)
      ensures forall i :: 0 <= i < |nows| ==> times[i] == TimeThrough(visited[i], ps[..i], old(visited[i].time))
      ensures forall i :: 0 <= i < |ring| ==> ring[i] in old(ring) || ring[i] in Concerned(ws)
    {
      hide Filtered, Dropped, NoDuplicates, Passes, TimeThrough, Scheduler.Valid;
      visited, times, ps := [], [], [];
      NoPasses(ring, CurTask);
      NoTime(ring, Concerned(ws));
      for i := 0 to |nows|
        invariant Valid() && |ps| == |visited| == |times| == i
        invariant (visited, ring, CurTask) == Passes(old(ring), old(CurTask), ps)
        invariant forall j :: 0 <= j < i ==> ps[j] == Pass(times[j] <= nows[j], ws[j])
        invariant forall j :: 0 <= j < i ==> visited[j] in old(ring) || visited[j] in Concerned(ws)
        invariant forall j :: 0 <= j < i ==> times[j] == TimeThrough(visited[j], ps[..j], old(visited[j].time))
        invariant forall j :: 0 <= j < |ring| ==> ring[j] in old(ring) || ring[j] in Concerned(ws)
        invariant forall t :: t in old(ring) || t in Concerned(ws) ==> t.time == TimeThrough(t, ps, old(t.time))
      {
        InConcerned(ws, i);
        label before:
        ghost var T, p := IdlePass(nows[i], ws[i], old(ring), old(CurTask), visited, ps);
        assert ps[..i] == ps;
        assert forall j :: 0 <= j <= i ==> (ps + [p])[..j] == ps[..j];
        forall t | t in old(ring) || t in Concerned(ws) ensures t.time == TimeThrough(t, ps + [p], old(t.time)) {
          ThroughMore(t, ps, p, old(t.time));
          if t !in old@before(ring) && t !in TasksOf(ws[i].acts) {
            NotPut(t, ws[i].acts, old@before(t.time));
          }
        }
        assert old@before(T.time) == TimeThrough(T, ps, old(T.time));
        visited, times, ps := visited + [T], times + [old@before(T.time)], ps + [p];
      }
    }

    // One more idle pass, after the passes `ps` from the ring `s`.
    method IdlePass(now: int, w: Work, ghost s: seq<Task>, ghost cur: Task?, ghost visited: seq<Task>, ghost ps: seq<Pass>)
        returns (ghost T: Task, ghost p: Pass)
      requires Valid() && |visited| == |ps| && (visited, ring, CurTask) == Passes(s, cur, ps)
      modifies this, ring`next, TasksOf(w.acts)`next, TasksOf(w.acts)`time
      ensures Valid() && T in old(ring) && p == Pass(old(T.time) <= now, w) && (visited + [T], ring, CurTask) == Passes(s, cur, ps + [p])
      ensures forall i :: 0 <= i < |ring| ==> ring[i] in old(ring) || ring[i] in TasksOf(w.acts)
      ensures forall t :: t in old(ring) || t in TasksOf(w.acts) ==>
        t.time == if p.due then TimeAfter(t, w.acts, old(t.time)) else old(t.time)
    {
      hide Filtered, Dropped, NoDuplicates, NextRing, NextCur, Left, Passes, TimeAfter;
      T := Left(ring, CurTask)[0];
      p := Pass(T.time <= now, w);
      PassesMore(s, cur, ps, p);
      LoopProcess(true, now, w);
    }

    // As many passes as there are tasks, with handlers that leave the ring alone. `CurTask` is
    // whatever the pass before has left.
    method WholeRound(nows: seq<int>, ws: seq<Work>) returns (ghost visited: seq<Task>, ghost times: seq<int>, ghost ps: seq<Pass>)
      requires Valid() && |nows| == |ws| == |Left(ring, CurTask)| && forall w :: w in ws ==> Aloof(w)
      modifies this, ring`next, Concerned(ws)`next, Concerned(ws)`time
      ensures Valid() && visited == old(Left(ring, CurTask)) && |ps| == |times| == |visited|
      ensures forall i :: 0 <= i < |nows| ==> ps[i] == Pass(times[i] <= nows[i], ws[i])
      ensures forall i :: 0 <= i < |nows| ==> visited[i] in old(ring)
      ensures forall i :: 0 <= i < |nows| ==> times[i] == TimeThrough(visited[i], ps[..i], old(visited[i].time))
      ensures Left(ring, CurTask) == Survivors(visited, ps)
      ensures forall i :: 0 <= i < |ring| ==> ring[i] in old(ring) || ring[i] in Concerned(ws)
    {
      assert NoDuplicates(ring);
      hide Scheduler.Valid, Filtered, Dropped, NoDuplicates, Concerned, Passes, Left, Kept, TimeThrough;
      LeftDistinct(ring, CurTask);
      visited, times, ps := Idle(nows, ws);
      PassesLeft(old(ring), old(CurTask), ps);
      RoundFromStart(old(Left(ring, CurTask)), ps);
    }
  }

  // One idle pass: whether the task is due whose turn it is, and what its handler then does.
  datatype Pass = Pass(due: bool, w: Work)

  // The ring `s` and CurTask after it.
  function NextRing(s: seq<Task>, p: Pass): seq<Task>
    requires s != []
  {
    if p.due then ActedAll(Rotated(s), p.w.acts) else Rotated(s)
  }

  function NextCur(s: seq<Task>, p: Pass): Task?
    requires s != []
  {
    if p.due && !p.w.traps then null else s[0]
  }

  lemma RotatedHas<T>(s: seq<T>)
    requires s != []
    ensures forall x :: x in s ==> x in Rotated(s)
  {
    forall x | x in s ensures x in Rotated(s) {
      var i :| 0 <= i < |s| && s[i] == x;
      assert Rotated(s)[if i == 0 then |s| - 1 else i - 1] == x;
    }
  }

  function Concerned(ws: seq<Work>): set<Task> {
    set i, t | 0 <= i < |ws| && t in TasksOf(ws[i].acts) :: t
  }

  lemma InConcerned(ws: seq<Work>, i: nat)
    requires i < |ws|
    ensures TasksOf(ws[i].acts) <= Concerned(ws)
  {
  }

  lemma {:induction false} NotPut(t: Task, acts: seq<Action>, time: int)
    requires t !in TasksOf(acts)
    ensures TimeAfter(t, acts, time) == time
    decreases |acts|
  {
    if acts != [] {
      assert acts[|acts| - 1] in acts;
      NotPut(t, acts[..|acts| - 1], time);
    }
  }

  // When task `t` is due after the passes, if it was at `time`.
  function TimeThrough(t: Task, ps: seq<Pass>, time: int): int {
    if ps == [] then time else
      var p, before := ps[|ps| - 1], TimeThrough(t, ps[..|ps| - 1], time);
      if p.due then TimeAfter(t, p.w.acts, before) else before
  }

  lemma ThroughMore(t: Task, ps: seq<Pass>, p: Pass, time: int)
    ensures var before := TimeThrough(t, ps, time);
      TimeThrough(t, ps + [p], time) == if p.due then TimeAfter(t, p.w.acts, before) else before
  {
    assert (ps + [p])[..|ps|] == ps;
  }

  lemma NoTime(s: seq<Task>, ts: set<Task>)
    ensures forall t, time :: t in s || t in ts ==> TimeThrough(t, [], time) == time
  {
  }

  // Idle passes on end: whose turn it was, the ring they leave, and CurTask.
  function Passes(s: seq<Task>, cur: Task?, ps: seq<Pass>): (seq<Task>, seq<Task>, Task?)
    decreases |ps|
  {
    var left := Left(s, cur);
    if ps == [] || left == [] then ([], s, cur) else
      var (visited, ring, last) := Passes(NextRing(left, ps[0]), NextCur(left, ps[0]), ps[1..]);
      ([left[0]] + visited, ring, last)
  }

  lemma NoPasses(s: seq<Task>, cur: Task?)
    ensures Passes(s, cur, []) == ([], s, cur)
  {
  }

  lemma {:induction false} PassesMore(s: seq<Task>, cur: Task?, ps: seq<Pass>, p: Pass)
    requires var (visited, ring, last) := Passes(s, cur, ps); |visited| == |ps| && Left(ring, last) != []
    ensures var (visited, ring, last) := Passes(s, cur, ps);
      var left := Left(ring, last);
      Passes(s, cur, ps + [p]) == (visited + [left[0]], NextRing(left, p), NextCur(left, p))
    decreases |ps|
  {
    hide Left, NextRing, NextCur;
    var left := Left(s, cur);
    if ps == [] {
      NoPasses(s, cur);
      NoPasses(NextRing(left, p), NextCur(left, p));
      assert (ps + [p])[1..] == [] && (ps + [p])[0] == p && [left[0]] + [] == [] + [left[0]];
    } else {
      var next, cur' := NextRing(left, ps[0]), NextCur(left, ps[0]);
      assert (ps + [p])[1..] == ps[1..] + [p] && (ps + [p])[0] == ps[0];
      PassesMore(next, cur', ps[1..], p);
      var (visited, ring, last) := Passes(next, cur', ps[1..]);
      var more := Left(ring, last)[0];
      assert [left[0]] + (visited + [more]) == [left[0]] + visited + [more];
    }
  }

  // What CurTask was matters only for the task it may cost.
  lemma PassesLeft(s: seq<Task>, cur: Task?, ps: seq<Pass>)
    requires ps != []
    ensures Passes(s, cur, ps) == Passes(Left(s, cur), null, ps) || Left(s, cur) == []
  {
    hide NextRing, NextCur;
    assert Left(Left(s, cur), null) == Left(s, cur);
  }

  // A handler that leaves the ring alone.
  predicate Aloof(w: Work) {
    forall a :: a in w.acts ==> a.Puts?
  }

  // Through with its turn: safe, or due and done without a trap.
  predicate Through(t: Task, p: Pass) {
    t.safe || (p.due && !p.w.traps)
  }

  function Kept(s: seq<Task>, ps: seq<Pass>): seq<Task>
    requires |s| == |ps|
  {
    if s == [] then [] else (if Through(s[0], ps[0]) then [s[0]] else []) + Kept(s[1..], ps[1..])
  }

  // Those kept, or the last task if there is none.
  function Survivors(s: seq<Task>, ps: seq<Pass>): seq<Task>
    requires |s| == |ps|
  {
    if Kept(s, ps) != [] || s == [] then Kept(s, ps) else [s[|s| - 1]]
  }

  function Pending(cur: Task?): seq<Task> {
    if cur == null then [] else
      var t: Task := cur;
      if t.safe then [] else [t]
  }

  lemma PendingOf(cur: Task?)
    ensures Pending(cur) == if cur == null then [] else var t: Task := cur; if t.safe then [] else [t]
  {
  }

  lemma AddNone<T>(a: seq<T>)
    ensures a + [] == a == [] + a
  {
  }

  lemma LeftPending(front: seq<Task>, cur: Task?)
    requires NoDuplicates(front + Pending(cur)) && front != []
    ensures Left(front + Pending(cur), cur) == front
  {
    if Pending(cur) != [] {
      var t: Task := cur;
      var s := front + [t];
      FilteredOne(s, t, |front|);
      assert Without(s, |front|) == front;
    }
  }

  lemma Moved(rest: seq<Task>, back: seq<Task>, pend: seq<Task>)
    requires rest != [] && NoDuplicates(rest + back + pend)
    ensures NoDuplicates(rest[1..] + (back + [rest[0]])) && NoDuplicates(rest + back)
    ensures Rotated(rest + back) == rest[1..] + (back + [rest[0]]) == rest[1..] + back + [rest[0]]
  {
    var s, r := rest + back + pend, rest[1..] + (back + [rest[0]]);
    assert Rotated(rest + back) == r == rest[1..] + back + [rest[0]];
    assert forall i :: 0 <= i < |rest + back| ==> (rest + back)[i] == s[i];
    assert forall i :: 0 <= i < |r| - 1 ==> r[i] == s[i + 1];
  }

  lemma {:induction false} AloofActs(s: seq<Task>, acts: seq<Action>)
    requires forall a :: a in acts ==> a.Puts?
    ensures ActedAll(s, acts) == s
    decreases |acts|
  {
    if acts != [] {
      assert acts[|acts| - 1] in acts;
      AloofActs(s, acts[..|acts| - 1]);
    }
  }

  // What the ring is in the end if `back` has had its turn and `rest` has not.
  function After(rest: seq<Task>, back: seq<Task>, cur: Task?, ps: seq<Pass>): seq<Task>
    requires |rest| == |ps|
  {
    if back + Kept(rest, ps) != [] then back + Kept(rest, ps)
    else if rest == [] then Pending(cur) else [rest[|rest| - 1]]
  }

  lemma OnlyOne(cur: Task?)
    requires Pending(cur) != []
    ensures Left(Pending(cur), cur) == Pending(cur)
  {
  }

  // One turn each, in ring order, whoever is dropped meanwhile; and then the ring is made of
  // those that were through with their turn.
  lemma {:induction false} Round(rest: seq<Task>, back: seq<Task>, cur: Task?, ps: seq<Pass>)
    requires |ps| == |rest| && NoDuplicates(rest + back + Pending(cur)) && rest + back + Pending(cur) != []
    requires forall i :: 0 <= i < |ps| ==> Aloof(ps[i].w)
    ensures var (visited, ring, last) := Passes(rest + back + Pending(cur), cur, ps);
      visited == rest && Left(ring, last) == After(rest, back, cur, ps)
    decreases |rest|
  {
    hide Left, Rotated, NoDuplicates, ActedAll, Pending, Aloof;
    if rest == [] {
      AddNone(back);
      AddNone(Pending(cur));
      if back == [] {
        OnlyOne(cur);
      } else {
        LeftPending(back, cur);
      }
    } else {
      RoundStep(rest, back, cur, ps);
    }
  }

  // The first pass of a round.
  lemma FirstPass(rest: seq<Task>, back: seq<Task>, cur: Task?, ps: seq<Pass>)
    requires |ps| == |rest| && NoDuplicates(rest + back + Pending(cur)) && rest != [] && Aloof(ps[0].w)
    ensures var t, next := rest[0], NextCur(rest + back, ps[0]);
      && next == (if ps[0].due && !ps[0].w.traps then null else t)
      && NoDuplicates(rest[1..] + (back + [t])) && Left(rest + back + Pending(cur), cur) == rest + back
      && NextRing(rest + back, ps[0]) == rest[1..] + (back + [t])
      && Pending(next) == if Through(t, ps[0]) then [] else [t]
  {
    var front := rest + back;
    AloofActs(Rotated(front), ps[0].w.acts);
    hide Left, Rotated, NoDuplicates, ActedAll, Pending;
    Moved(rest, back, Pending(cur));
    LeftPending(front, cur);
    PendingOf(NextCur(front, ps[0]));
  }

  lemma {:induction false} RoundStep(rest: seq<Task>, back: seq<Task>, cur: Task?, ps: seq<Pass>)
    requires |ps| == |rest| && NoDuplicates(rest + back + Pending(cur)) && rest != []
    requires forall i :: 0 <= i < |ps| ==> Aloof(ps[i].w)
    ensures var (visited, ring, last) := Passes(rest + back + Pending(cur), cur, ps);
      visited == rest && Left(ring, last) == After(rest, back, cur, ps)
    decreases |rest|, 0
  {
    hide Left, NoDuplicates, NextRing, NextCur, Pending, Aloof, Through;
    FirstPass(rest, back, cur, ps);
    var t, next := rest[0], NextCur(rest + back, ps[0]);
    if Through(t, ps[0]) {
      AddNone(rest[1..] + (back + [t]));
      Regroup(back, [t], Kept(rest[1..], ps[1..]));
      Round(rest[1..], back + [t], next, ps[1..]);
    } else {
      AddNone(Kept(rest[1..], ps[1..]));
      Regroup(rest[1..], back, [t]);
      Round(rest[1..], back, next, ps[1..]);
    }
    assert [t] + rest[1..] == rest;
  }

  lemma RoundFromStart(s: seq<Task>, ps: seq<Pass>)
    requires |ps| == |s| && NoDuplicates(s) && s != [] && forall i :: 0 <= i < |ps| ==> Aloof(ps[i].w)
    ensures var (visited, ring, last) := Passes(s, null, ps);
      visited == s && Left(ring, last) == Survivors(s, ps)
  {
    hide Kept, Passes, Left, NoDuplicates, Aloof;
    AddNone(s);
    AddNone(Kept(s, ps));
    Round(s, [], null, ps);
  }

  lemma LeftDistinct(s: seq<Task>, cur: Task?)
    requires NoDuplicates(s)
    ensures NoDuplicates(Left(s, cur))
  {
    if cur != null {
      var t: Task := cur;
      hide Filtered;
      if t in s {
        var k: nat :| k < |s| && s[k] == t;
        FilteredOne(s, t, k);
        WithoutAt(s, k);
      } else {
        FilteredNone(s, t);
      }
    }
  }

  // A task that is not safe, and not due at its turn, is lost.
  method LostExample() returns (s: Scheduler, T: Task)
    ensures s.Valid() && T !in s.ring && |s.ring| == 1
  {
    s := new Scheduler();
    T := new Task(false, 10);
    ghost var gc := s.ring[0];
    s.Install(T);
    assert s.ring == [gc, T];
    var idle := Work([], false);
    ghost var visited, times, ps := s.WholeRound([0, 0], [idle, idle]);
    assert visited == [gc, T] && ps[..1] == [ps[0]] && ps[..0] == [];
    Losing(gc, T, ps);
    s.LoopProcess(false, 0, idle);
  }

  lemma Losing(gc: Task, T: Task, ps: seq<Pass>)
    requires |ps| == 2 && gc.safe && !T.safe && ps[0].w == Work([], false)
    requires ps[1].due == (TimeThrough(T, ps[..1], 10) <= 0)
    ensures Survivors([gc, T], ps) == [gc]
  {
    assert TimeThrough(T, ps[..1], 10) == 10;
    assert Kept([T], ps[1..]) == [];
  }

  // `x` is among the first `k + 1`.
  ghost predicate Within<T>(s: seq<T>, x: T, k: nat) {
    exists i :: 0 <= i <= k && i < |s| && s[i] == x
  }

  lemma WithoutAt<T>(s: seq<T>, j: nat)
    requires j < |s|
    ensures |Without(s, j)| == |s| - 1
    ensures forall i :: 0 <= i < |s| - 1 ==> Without(s, j)[i] == s[if i < j then i else i + 1]
  {
  }

  // Taking another element out does not move `x` back.
  lemma FilteredWithin<T>(s: seq<T>, y: T, x: T, k: nat)
    requires NoDuplicates(s) && x != y && Within(s, x, k)
    ensures NoDuplicates(Filtered(s, y)) && Within(Filtered(s, y), x, k)
  {
    hide Filtered, Without;
    if y in s {
      var j: nat :| j < |s| && s[j] == y;
      FilteredOne(s, y, j);
      WithoutAt(s, j);
      var i :| 0 <= i <= k && i < |s| && s[i] == x;
      assert Without(s, j)[if i < j then i else i - 1] == x;
    } else {
      FilteredNone(s, y);
    }
  }

  lemma DroppedWithin(s: seq<Task>, u: Task, t: Task, k: nat)
    requires NoDuplicates(s) && Within(s, t, k) && u != t
    ensures NoDuplicates(Dropped(s, u)) && Within(Dropped(s, u), t, k)
  {
    FilteredWithin(s, u, t, k);
    hide Within, NoDuplicates, Filtered;
  }

  lemma ActedWithin(s: seq<Task>, act: Action, t: Task, k: nat)
    requires NoDuplicates(s) && Within(s, t, k) && act != Removes(t)
    ensures NoDuplicates(Acted(s, act)) && Within(Acted(s, act), t, k)
  {
    match act {
      case Puts(_, _) =>
      case Installs(u) =>
        var i :| 0 <= i <= k && i < |s| && s[i] == t;
        assert (s + [u])[i] == t;
      case Removes(u) =>
        DroppedWithin(s, u, t, k);
    }
  }

  lemma {:induction false} AllActedWithin(s: seq<Task>, acts: seq<Action>, t: Task, k: nat)
    requires NoDuplicates(s) && Within(s, t, k) && Removes(t) !in acts
    ensures NoDuplicates(ActedAll(s, acts)) && Within(ActedAll(s, acts), t, k)
    decreases |acts|
  {
    hide Acted, Within, NoDuplicates;
    if acts != [] {
      AllActedWithin(s, acts[..|acts| - 1], t, k);
      ActedWithin(ActedAll(s, acts[..|acts| - 1]), acts[|acts| - 1], t, k);
    }
  }

  lemma RotatedWithin<T>(s: seq<T>, x: T, k: nat)
    requires NoDuplicates(s) && Within(s, x, k) && s[0] != x
    ensures k > 0 && NoDuplicates(Rotated(s)) && Within(Rotated(s), x, k - 1)
  {
    var i :| 0 <= i <= k && i < |s| && s[i] == x;
    assert Rotated(s)[i - 1] == x;
  }

  lemma LeftWithin(s: seq<Task>, cur: Task?, t: Task, k: nat)
    requires NoDuplicates(s) && Within(s, t, k) && cur != t
    ensures NoDuplicates(Left(s, cur)) && Within(Left(s, cur), t, k)
  {
    hide Within, NoDuplicates, Dropped;
    if cur != null {
      DroppedWithin(s, cur, t, k);
    }
  }

  // A task with `k` others before it has its turn within k+1 passes, whatever the handlers
  // install or remove in the meantime, unless one of them removes it.
  lemma {:induction false} Fair(s: seq<Task>, cur: Task?, ps: seq<Pass>, t: Task, k: nat)
    requires NoDuplicates(s) && Within(s, t, k) && cur != t && |ps| == k + 1
    requires forall i :: 0 <= i < |ps| ==> Removes(t) !in ps[i].w.acts
    ensures t in Passes(s, cur, ps).0
    decreases k
  {
    LeftWithin(s, cur, t, k);
    var left := Left(s, cur);
    hide Left, Within, NoDuplicates, ActedAll;
    assert left != [] by { WithinSome(left, t, k); }
    if left[0] != t {
      RotatedWithin(left, t, k);
      AllActedWithin(Rotated(left), ps[0].w.acts, t, k - 1);
      hide Rotated;
      Fair(NextRing(left, ps[0]), NextCur(left, ps[0]), ps[1..], t, k - 1);
    }
  }

  lemma WithinSome<T>(s: seq<T>, x: T, k: nat)
    requires Within(s, x, k)
    ensures s != []
  {
  }
}
