/**
  UDP associations by source, and the tasks that serve them: every task has its
  own generation, and a source's entry names the generation that is current.
 */
module UdpIngress {
  import opened Base

  /** One association in the table. */
  datatype Association = Association(generation: nat, lastActivity: nat)

  /** An unfinished task, the source it serves, and whether its own token is cancelled. */
  datatype Task = Task(source: SocketAddr, cancelled: bool)

  type Table = map<SocketAddr, Association>
  type Tasks = map<nat, Task>

  datatype Input = Queued | Full | Closed

  /** How a task is joined: with its own source and generation, or by a panic that names neither. */
  datatype Joined = Finished(generation: nat) | Crashed(generation: nat)

  // --------------------------------------------------------------- invariant

  ghost predicate Current(table: Table, g: nat, t: Task)
  {
    t.source in table && table[t.source].generation == g
  }

  /** An unfinished task is cancelled exactly when it is no longer the current entry of its source. */
  ghost predicate Owned(table: Table, tasks: Tasks)
  {
    forall g :: g in tasks ==> (tasks[g].cancelled <==> !Current(table, g, tasks[g]))
  }

  /** Generations are never reused. */
  ghost predicate Numbered(table: Table, tasks: Tasks, next: nat)
  {
    && (forall g :: g in tasks ==> g < next)
    && (forall s :: s in table ==> table[s].generation < next)
  }

  /** An entry's generation belongs to its own source, as long as its task runs. */
  ghost predicate Matched(table: Table, tasks: Tasks)
  {
    forall s :: s in table && table[s].generation in tasks ==> tasks[table[s].generation].source == s
  }

  ghost predicate Sound(table: Table, tasks: Tasks, next: nat)
  {
    Owned(table, tasks) && Numbered(table, tasks, next) && Matched(table, tasks)
  }

  /** So no source is ever served by two live tasks. */
  lemma OneLiveTask(table: Table, tasks: Tasks, next: nat, g: nat, h: nat)
    requires Sound(table, tasks, next) && g in tasks && h in tasks
    requires tasks[g].source == tasks[h].source && !tasks[g].cancelled && !tasks[h].cancelled
    ensures g == h
  {
    assert Current(table, g, tasks[g]) && Current(table, h, tasks[h]);
  }

  function Cancel(tasks: Tasks, g: nat): (r: Tasks)
    ensures r.Keys == tasks.Keys
    ensures forall h :: h in tasks ==> r[h] == if h == g then Task(tasks[g].source, true) else tasks[h]
  {
    if g in tasks then tasks[g := Task(tasks[g].source, true)] else tasks
  }

  /** The association a datagram from `source` finds or starts. */
  function Entry(table: Table, source: SocketAddr, next: nat, now: nat): (entry: Association)
  {
    if source in table then table[source] else Association(next, now)
  }

  /** The table after its answer: fed, left alone, or removed because it is closing. */
  function AfterInput(table: Table, source: SocketAddr, entry: Association, now: nat, input: Input): (r: Table)
  {
    match input
    case Queued => table[source := Association(entry.generation, now)]
    case Full => table[source := entry]
    case Closed => table - {source}
  }

  /** A task for a new association; a closing association's own task is cancelled, no other. */
  function TasksAfter(tasks: Tasks, known: bool, source: SocketAddr, generation: nat, input: Input): (r: Tasks)
  {
    var running := if known then tasks else tasks[generation := Task(source, false)];
    if input.Closed? then Cancel(running, generation) else running
  }

  lemma RemoveKeeps(table: Table, tasks: Tasks, next: nat, source: SocketAddr)
    requires Sound(table, tasks, next) && source in table
    ensures Sound(table - {source}, Cancel(tasks, table[source].generation), next)
  {
    var after, left := table - {source}, Cancel(tasks, table[source].generation);
    forall g | g in left ensures left[g].cancelled <==> !Current(after, g, left[g]) {
      assert tasks[g].cancelled <==> !Current(table, g, tasks[g]);
    }
  }

  /** The generation's entry has been taken out. */
  ghost predicate Left(before: Table, after: Table, g: nat)
  {
    exists s :: s in before && s !in after && before[s].generation == g
  }

  /** Exactly the tasks whose entries have been taken out are cancelled in addition. */
  ghost predicate Cancelling(before: Table, after: Table, tasks: Tasks, tasks': Tasks)
  {
    tasks'.Keys == tasks.Keys
    && forall g :: g in tasks ==> tasks'[g] == if Left(before, after, g) then Task(tasks[g].source, true) else tasks[g]
  }

  lemma CancelOne(before: Table, now: Table, tasks: Tasks, tasks': Tasks, s: SocketAddr)
    requires Cancelling(before, now, tasks, tasks') && s in now && s in before && now[s] == before[s]
    ensures Cancelling(before, now - {s}, tasks, Cancel(tasks', now[s].generation))
  {
    var after := now - {s};
    forall g ensures Left(before, after, g) <==> Left(before, now, g) || g == before[s].generation {
      if Left(before, after, g) {
        var r :| r in before && r !in after && before[r].generation == g;
        assert r == s || r !in now;
      }
      if Left(before, now, g) {
        var r :| r in before && r !in now && before[r].generation == g;
        assert r !in after;
      }
      assert s !in after;
    }
  }

  /** Idle for too long, or the receiving task has closed its queue. */
  predicate Expired(idle: nat, a: Association, now: nat, closed: set<nat>)
  {
    a.generation in closed || (if now >= a.lastActivity then now - a.lastActivity else 0) >= idle
  }

  /** The generation belongs to an association that has expired. */
  ghost predicate Gone(idle: nat, before: Table, g: nat, now: nat, closed: set<nat>)
  {
    exists s :: s in before && before[s].generation == g && Expired(idle, before[s], now, closed)
  }

  /** The table without its expired associations. */
  ghost function Swept(idle: nat, table: Table, now: nat, closed: set<nat>): (r: Table)
  {
    map s | s in table && !Expired(idle, table[s], now, closed) :: table[s]
  }

  /** The tasks, those of expired associations cancelled. */
  ghost function SweptTasks(idle: nat, table: Table, tasks: Tasks, now: nat, closed: set<nat>): (r: Tasks)
  {
    map g | g in tasks :: if Gone(idle, table, g, now, closed) then Task(tasks[g].source, true) else tasks[g]
  }

  // ----------------------------------------------------------------- ingress

  class Ingress {
    const idleTimeout: nat
    var table: Table
    var tasks: Tasks
    var next: nat
    var stopped: bool

    ghost predicate Valid()
      reads this
    {
      Sound(table, tasks, next)
    }

    ghost function View(): (s: State)
      reads this
    {
      State(table, tasks, next, stopped)
    }

    constructor (idleTimeout: nat)
      ensures Valid() && table == map[] && tasks == map[] && !stopped
    {
      this.idleTimeout := idleTimeout;
      table, tasks, next, stopped := map[], map[], 0, false;
    }

    /** Removes the entry of `source` only if it is still that generation. */
    method RemoveCompleted(source: SocketAddr, generation: nat) returns (removed: Option<Association>)
      modifies `table
      ensures removed.Some? <==> source in old(table) && old(table)[source].generation == generation
      ensures removed.Some? ==> removed.value == old(table)[source] && table == old(table) - {source}
      ensures removed.None? ==> table == old(table)
    {
      if source in table && table[source].generation == generation {
        removed := Some(table[source]);
        table := table - {source};
      } else {
        removed := None;
      }
    }

    /** Starts an association for a source that has none. */
    method Create(source: SocketAddr, now: nat)
      requires Valid() && source !in table
      modifies `table, `tasks, `next
      ensures Valid() && next == old(next) + 1
      ensures table == old(table)[source := Association(old(next), now)]
      ensures tasks == old(tasks)[old(next) := Task(source, false)]
    {
      table := table[source := Association(next, now)];
      tasks := tasks[next := Task(source, false)];
      next := next + 1;
      forall g | g in tasks ensures tasks[g].cancelled <==> !Current(table, g, tasks[g]) {
        if g in old(tasks) {
          assert old(tasks)[g].cancelled <==> !Current(old(table), g, old(tasks)[g]);
        }
      }
    }

    /**
      A datagram from `source`. An association found closing is cancelled and
      removed, and the datagram is dropped rather than retried.
     */
    method Offer(source: SocketAddr, toResolver: bool, now: nat, input: Input)
      requires Valid()
      modifies `table, `tasks, `next
      ensures Valid()
      ensures stopped || toResolver ==> table == old(table) && tasks == old(tasks) && next == old(next)
      ensures !stopped && !toResolver ==>
                var entry := Entry(old(table), source, old(next), now);
                && table == AfterInput(old(table), source, entry, now, input)
                && tasks == TasksAfter(old(tasks), source in old(table), source, entry.generation, input)
                && next == old(next) + if source in old(table) then 0 else 1
    {
      if stopped || toResolver {
        return;
      }
      if source !in table {
        Create(source, now);
      }
      var association := table[source];
      match input {
        case Queued => table := table[source := Association(association.generation, now)];
        case Full =>
        case Closed =>
          RemoveKeeps(table, tasks, next, source);
          var removed := RemoveCompleted(source, association.generation);
          tasks := Cancel(tasks, association.generation);
      }
    }

    /** A response of a running task was queued: its association is active again, if it is still in the table. */
    method Touch(generation: nat, now: nat)
      requires Valid() && generation in tasks
      modifies `table
      ensures Valid()
      ensures var source := tasks[generation].source;
              if Current(old(table), generation, tasks[generation])
              then table == old(table)[source := Association(generation, now)] else table == old(table)
    {
      var source := tasks[generation].source;
      if source in table && table[source].generation == generation {
        table := table[source := Association(generation, now)];
        forall g | g in tasks ensures tasks[g].cancelled <==> !Current(table, g, tasks[g]) {
          assert Current(table, g, tasks[g]) <==> Current(old(table), g, tasks[g]);
        }
      }
    }

    /** A joined task leaves; its entry goes with it unless a newer generation has taken its place. */
    method Complete(joined: Joined)
      requires Valid() && joined.generation in tasks
      modifies `table, `tasks
      ensures Valid() && tasks == old(tasks) - {joined.generation}
      ensures var source := old(tasks)[joined.generation].source;
              if joined.Finished? && source in old(table) && old(table)[source].generation == joined.generation
              then table == old(table) - {source} else table == old(table)
    {
      var g := joined.generation;
      if joined.Finished? {
        var removed := RemoveCompleted(tasks[g].source, g);
      }
      tasks := tasks - {g};
      forall h | h in tasks ensures tasks[h].cancelled <==> !Current(table, h, tasks[h]) {
        assert old(tasks)[h].cancelled <==> !Current(old(table), h, old(tasks)[h]);
      }
    }

    /** Removes and cancels exactly the expired associations. `closed` are the generations whose queues are closed. */
    method Cleanup(now: nat, closed: set<nat>)
      requires Valid()
      modifies `table, `tasks
      ensures Valid() && table == Swept(idleTimeout, old(table), now, closed)
      ensures tasks == SweptTasks(idleTimeout, old(table), old(tasks), now, closed)
    {
      var sources := set s | s in table && Expired(idleTimeout, table[s], now, closed);
      while sources != {}
        invariant Valid() && sources <= table.Keys
        invariant forall s :: s in table ==> s in old(table) && table[s] == old(table)[s]
        invariant forall s :: s in sources ==> Expired(idleTimeout, old(table)[s], now, closed)
        invariant forall s :: s in old(table) && s !in table ==> Expired(idleTimeout, old(table)[s], now, closed)
        invariant forall s :: s in old(table) && Expired(idleTimeout, old(table)[s], now, closed) ==> s in sources || s !in table
        invariant tasks.Keys == old(tasks).Keys && Cancelling(old(table), table, old(tasks), tasks)
        decreases |sources|
      {
        var s :| s in sources;
        sources := sources - {s};
        RemoveKeeps(table, tasks, next, s);
        CancelOne(old(table), table, old(tasks), tasks, s);
        tasks := Cancel(tasks, table[s].generation);
        table := table - {s};
      }
      forall g | g in tasks
        ensures tasks[g] == if Gone(idleTimeout, old(table), g, now, closed) then Task(old(tasks)[g].source, true) else old(tasks)[g]
      {
        if Gone(idleTimeout, old(table), g, now, closed) {
          var s :| s in old(table) && old(table)[s].generation == g && Expired(idleTimeout, old(table)[s], now, closed);
          assert Left(old(table), table, g);
        } else {
          assert !Left(old(table), table, g);
        }
      }
    }

    /** Cancels every association, then waits for every task. */
    method Stop()
      requires Valid()
      modifies `table, `tasks, `stopped
      ensures Valid() && stopped && table == map[] && tasks == map[]
    {
      stopped := true;
      while table != map[]
        invariant Valid() && stopped
        decreases |table|
      {
        var s :| s in table;
        RemoveKeeps(table, tasks, next, s);
        tasks := Cancel(tasks, table[s].generation);
        table := table - {s};
      }
      while tasks != map[]
        invariant Valid() && stopped && table == map[]
        decreases |tasks|
      {
        var g :| g in tasks;
        Complete(Finished(g));
      }
    }
  }

  // --------------------------------------------------------------- whole runs

  datatype Event =
    | Offered(source: SocketAddr, toResolver: bool, now: nat, input: Input)
    | Completed(joined: Joined)
    | Responded(generation: nat, now: nat)
    | Cleaned(now: nat, closed: set<nat>)
    | Halted

  datatype State = State(table: Table, tasks: Tasks, next: nat, stopped: bool)

  /** What one event makes of the state. */
  ghost function After(idle: nat, s: State, e: Event): (t: State)
  {
    match e
    case Offered(source, toResolver, now, input) =>
      if s.stopped || toResolver then s
      else
        var entry := Entry(s.table, source, s.next, now);
        State(AfterInput(s.table, source, entry, now, input),
              TasksAfter(s.tasks, source in s.table, source, entry.generation, input),
              s.next + if source in s.table then 0 else 1, false)
    case Completed(joined) =>
      var g := joined.generation;
      if g !in s.tasks then s
      else
        var leaves := joined.Finished? && Current(s.table, g, s.tasks[g]);
        State(if leaves then s.table - {s.tasks[g].source} else s.table, s.tasks - {g}, s.next, s.stopped)
    case Responded(g, now) =>
      if g in s.tasks && Current(s.table, g, s.tasks[g]) then s.(table := s.table[s.tasks[g].source := Association(g, now)])
      else s
    case Cleaned(now, closed) =>
      s.(table := Swept(idle, s.table, now, closed), tasks := SweptTasks(idle, s.table, s.tasks, now, closed))
    case Halted => State(map[], map[], s.next, true)
  }

  ghost function AfterAll(idle: nat, s: State, events: seq<Event>): (t: State)
  {
    if |events| == 0 then s
    else After(idle, AfterAll(idle, s, events[..|events| - 1]), events[|events| - 1])
  }

  /** A generation that has been given out and whose task has ended never runs again. */
  lemma {:induction false} NeverAgain(idle: nat, s: State, events: seq<Event>, g: nat)
    requires g < s.next && g !in s.tasks
    ensures g < AfterAll(idle, s, events).next && g !in AfterAll(idle, s, events).tasks
  {
    if |events| > 0 {
      NeverAgain(idle, s, events[..|events| - 1], g);
    }
  }

  /** Once stopped, no event starts anything: the tasks only become fewer. */
  lemma {:induction false} StaysStopped(idle: nat, s: State, events: seq<Event>)
    requires s.stopped
    ensures AfterAll(idle, s, events).stopped && AfterAll(idle, s, events).tasks.Keys <= s.tasks.Keys
  {
    if |events| > 0 {
      StaysStopped(idle, s, events[..|events| - 1]);
    }
  }

  /** Any interleaving does what its events say, one after the other, and keeps every live task current. */
  method Drive(ingress: Ingress, events: seq<Event>)
    requires ingress.Valid()
    modifies ingress
    ensures ingress.Valid() && ingress.View() == AfterAll(ingress.idleTimeout, old(ingress.View()), events)
    ensures old(ingress.stopped) ==> ingress.stopped && ingress.tasks.Keys <= old(ingress.tasks).Keys
  {
    for i := 0 to |events|
      invariant ingress.Valid() && ingress.View() == AfterAll(ingress.idleTimeout, old(ingress.View()), events[..i])
    {
      assert events[..i + 1][..i] == events[..i];
      Perform(ingress, events[i]);
    }
    assert events[..|events|] == events;
    if old(ingress.stopped) {
      StaysStopped(ingress.idleTimeout, old(ingress.View()), events);
    }
  }

  method Perform(ingress: Ingress, e: Event)
    requires ingress.Valid()
    modifies ingress
    ensures ingress.Valid() && ingress.View() == After(ingress.idleTimeout, old(ingress.View()), e)
  {
    match e {
      case Offered(source, toResolver, now, input) => ingress.Offer(source, toResolver, now, input);
      case Completed(joined) =>
        if joined.generation in ingress.tasks {
          ingress.Complete(joined);
        }
      case Responded(generation, now) =>
        if generation in ingress.tasks {
          ingress.Touch(generation, now);
        }
      case Cleaned(now, closed) => ingress.Cleanup(now, closed);
      case Halted => ingress.Stop();
    }
  }
}
