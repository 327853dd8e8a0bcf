/** Every interleaving of connects, disconnects and publishes on the socket registry. Between two
    awaits the event loop runs one task alone, so each step below is atomic. */
module RegistryRuns {
  import opened ConnectionRegistry

  type PublishId = nat

  /** A publish in progress: its snapshot, the sends still to finish, and those finished. */
  datatype Fanout = Fanout(project: Project, snapshot: seq<Connection>, remaining: seq<Connection>,
                           attempted: seq<Connection>)

  /** The registry with its history: what arrived, was evicted and was disconnected, in order. */
  datatype State = State(
    reg: Registry,
    arrived: map<Project, seq<Connection>>,
    evicted: map<Project, seq<Connection>>,
    disconnected: map<Project, seq<Connection>>,
    publishes: map<PublishId, Fanout>)

  datatype Step =
    | Connect(project: Project, conn: Connection)
    | Disconnect(project: Project, conn: Connection)
    | Publish(id: PublishId, project: Project)
    | SendOk(id: PublishId, conn: Connection)
    | SendFail(id: PublishId, conn: Connection)

  ghost predicate Enabled(s: State, step: Step) {
    match step
    case Connect(project, conn) => conn !in Listed(s.arrived, project)
    case Disconnect(_, _) => true
    case Publish(id, _) => id !in s.publishes
    case SendOk(id, conn) => id in s.publishes && conn in s.publishes[id].remaining
    case SendFail(id, conn) => id in s.publishes && conn in s.publishes[id].remaining
  }

  function Drop(s: State, project: Project, conn: Connection): State {
    s.(reg := Disconnected(s.reg, project, conn),
       disconnected := if conn in Listed(s.reg, project)
                       then s.disconnected[project := Listed(s.disconnected, project) + [conn]]
                       else s.disconnected)
  }

  function Attempted(s: State, id: PublishId, conn: Connection): State
    requires id in s.publishes
  {
    var f := s.publishes[id];
    s.(publishes := s.publishes[id := f.(remaining := Removed(f.remaining, conn), attempted := f.attempted + [conn])])
  }

  ghost function Next(s: State, step: Step): State
    requires Enabled(s, step)
  {
    match step
    case Connect(project, conn) =>
      s.(reg := Connected(s.reg, project, conn),
         arrived := s.arrived[project := Listed(s.arrived, project) + [conn]],
         evicted := s.evicted[project := Listed(s.evicted, project) + Evicted(Listed(s.reg, project), conn.user)])
    case Disconnect(project, conn) => Drop(s, project, conn)
    case Publish(id, project) =>
      var conns := Listed(s.reg, project);
      s.(publishes := s.publishes[id := Fanout(project, conns, conns, [])])
    case SendOk(id, conn) => Attempted(s, id, conn)
    case SendFail(id, conn) => Drop(Attempted(s, id, conn), s.publishes[id].project, conn)
  }

  ghost predicate IsRun(tr: seq<State>, steps: seq<Step>) {
    && |tr| == |steps| + 1
    && tr[0] == State(map[], map[], map[], map[], map[])
    && forall i | 0 <= i < |steps| :: Enabled(tr[i], steps[i]) && tr[i + 1] == Next(tr[i], steps[i])
  }

  ghost function Queue(s: State, project: Project, user: User): seq<Connection> {
    Of(Listed(s.reg, project), user)
  }

  // ----- the bounded queue -----

  /** What a bounded first-in first-out queue does for one project and user. */
  ghost function FifoNext(queue: seq<Connection>, s: State, step: Step, project: Project, user: User): seq<Connection>
    requires Enabled(s, step)
  {
    match step
    case Connect(p, conn) =>
      if p == project && conn.user == user then Latest(queue + [conn], MAX_SOCKETS_PER_USER_PROJECT) else queue
    case Disconnect(p, conn) => if p == project && conn.user == user then Removed(queue, conn) else queue
    case SendFail(id, conn) =>
      if s.publishes[id].project == project && conn.user == user then Removed(queue, conn) else queue
    case _ => queue
  }

  /** Every step of the registry is a step of every user's own bounded queue. */
  lemma StepRefinesFifo(s: State, step: Step, project: Project, user: User)
    requires Enabled(s, step)
    ensures Queue(Next(s, step), project, user) == FifoNext(Queue(s, project, user), s, step, project, user)
  {
    match step
    case Connect(p, conn) => ConnectIsBoundedEnqueue(s.reg, p, conn, project, user);
    case Disconnect(p, conn) => DisconnectIsRemoval(s.reg, p, conn, project, user);
    case SendFail(id, conn) => DisconnectIsRemoval(s.reg, s.publishes[id].project, conn, project, user);
    case _ =>
  }

  // ----- arrival order -----

  /** `a` is what is left of `b` after leaving some elements out. */
  ghost predicate Subsequence(a: seq<Connection>, b: seq<Connection>)
    decreases |b|
  {
    a == [] || (b != [] && (Subsequence(a, b[..|b| - 1])
                            || (a[|a| - 1] == b[|b| - 1] && Subsequence(a[..|a| - 1], b[..|b| - 1]))))
  }

  lemma {:induction false} SubsequenceAppend(a: seq<Connection>, b: seq<Connection>, c: Connection)
    requires Subsequence(a, b)
    ensures Subsequence(a + [c], b + [c])
  {
    assert (a + [c])[..|a|] == a && (b + [c])[..|b|] == b;
  }

  lemma {:induction false} RemovedWithin(a: seq<Connection>, b: seq<Connection>, c: Connection)
    requires c in a
    ensures Removed(a + b, c) == Removed(a, c) + b
    decreases |a|
  {
    var first, rest := a[0], a[1..];
    assert (a + b)[0] == first && (a + b)[1..] == rest + b;
    if first != c {
      RemovedWithin(rest, b, c);
    }
  }

  lemma RemovedFromEnd(a: seq<Connection>, last: Connection, c: Connection)
    ensures Removed(a + [last], c) == if c in a then Removed(a, c) + [last] else if c == last then a else a + [last]
  {
    if c in a {
      RemovedWithin(a, [last], c);
    } else {
      RemovedBehindAll(a, [last], c);
      assert a + [] == a;
    }
  }

  lemma {:induction false} SubsequenceRemoved(a: seq<Connection>, b: seq<Connection>, c: Connection)
    requires Subsequence(a, b)
    ensures Subsequence(Removed(a, c), b)
    decreases |b|
  {
    if a != [] {
      var front, last := a[..|a| - 1], a[|a| - 1];
      assert a == front + [last];
      RemovedFromEnd(front, last, c);
      if Subsequence(a, b[..|b| - 1]) {
        SubsequenceRemoved(a, b[..|b| - 1], c);
      } else {
        SubsequenceRemoved(front, b[..|b| - 1], c);
        if c in front {
          assert (Removed(front, c) + [last])[..|front| - 1] == Removed(front, c);
        }
      }
    }
  }

  lemma {:induction false} RemovedBehindAll(a: seq<Connection>, b: seq<Connection>, c: Connection)
    requires c !in a
    ensures Removed(a + b, c) == a + Removed(b, c)
    decreases |a|
  {
    if a == [] {
      assert a + b == b;
    } else {
      var first, rest := a[0], a[1..];
      assert (a + b)[0] == first && (a + b)[1..] == rest + b;
      RemovedBehindAll(rest, b, c);
      assert [first] + (rest + Removed(b, c)) == a + Removed(b, c);
    }
  }

  // ----- conservation -----

  lemma ConsCount(first: Connection, rest: seq<Connection>)
    ensures multiset([first] + rest) == multiset{first} + multiset(rest)
  {}

  lemma {:induction false} RemovedCount(conns: seq<Connection>, c: Connection)
    ensures multiset(Removed(conns, c)) == multiset(conns) - multiset{c}
  {
    if conns != [] {
      var first, rest := conns[0], conns[1..];
      assert conns == [first] + rest;
      ConsCount(first, rest);
      if first != c {
        RemovedCount(rest, c);
        ConsCount(first, Removed(rest, c));
      }
    }
  }

  lemma CountEviction(whole: multiset<Connection>, one: Connection, rest: multiset<Connection>,
                      gone: multiset<Connection>, kept: multiset<Connection>)
    requires one in whole && rest == whole - multiset{one} && rest == gone + kept
    ensures whole == (multiset{one} + gone) + kept
  {
    assert forall c :: whole[c] == rest[c] + multiset{one}[c] == gone[c] + kept[c] + multiset{one}[c];
  }

  lemma {:induction false} EvictConserves(conns: seq<Connection>, user: User)
    ensures multiset(conns) == multiset(Evicted(conns, user)) + multiset(Kept(conns, user))
    decreases |conns|
  {
    if |Of(conns, user)| >= MAX_SOCKETS_PER_USER_PROJECT {
      var oldest := Of(conns, user)[0];
      var rest := Removed(conns, oldest);
      RemovedCount(conns, oldest);
      EvictConserves(rest, user);
      ConsCount(oldest, Evicted(rest, user));
      CountEviction(multiset(conns), oldest, multiset(rest), multiset(Evicted(rest, user)), multiset(Kept(rest, user)));
    }
  }

  /** Each arrival is registered, evicted or disconnected, and only one of them. */
  ghost predicate Conserved(s: State, project: Project) {
    && multiset(Listed(s.arrived, project)) ==
       multiset(Listed(s.reg, project)) + multiset(Listed(s.evicted, project))
       + multiset(Listed(s.disconnected, project))
    && forall c :: multiset(Listed(s.arrived, project))[c] <= 1
  }

  /** The evicted connections, then those still held, in the order they arrived. */
  ghost predicate InOrder(s: State, project: Project, user: User) {
    Subsequence(Of(Listed(s.evicted, project), user) + Queue(s, project, user), Of(Listed(s.arrived, project), user))
  }

  ghost predicate Capped(s: State) {
    && (forall project | project in s.reg :: s.reg[project] != [])
    && forall project, user :: |Queue(s, project, user)| <= MAX_SOCKETS_PER_USER_PROJECT
  }

  ghost predicate FanoutInv(f: Fanout) {
    && multiset(f.snapshot) == multiset(f.attempted) + multiset(f.remaining)
    && forall c :: multiset(f.snapshot)[c] <= 1
  }

  ghost predicate Inv(s: State) {
    && Capped(s)
    && (forall project :: Conserved(s, project))
    && (forall project, user :: InOrder(s, project, user))
    && (forall id | id in s.publishes :: FanoutInv(s.publishes[id]))
  }

  lemma StepKeepsCap(s: State, step: Step)
    requires Capped(s) && Enabled(s, step)
    ensures Capped(Next(s, step))
  {
    forall project, user
      ensures |Queue(Next(s, step), project, user)| <= MAX_SOCKETS_PER_USER_PROJECT
    {
      StepRefinesFifo(s, step, project, user);
      assert |Queue(s, project, user)| <= MAX_SOCKETS_PER_USER_PROJECT;
    }
  }

  lemma DropConserves(s: State, project: Project, conn: Connection, p: Project)
    requires Conserved(s, p)
    ensures Conserved(Drop(s, project, conn), p)
  {
    if conn in Listed(s.reg, project) && p == project {
      var conns, gone := Listed(s.reg, p), Listed(s.disconnected, p);
      var s' := Drop(s, p, conn);
      RemovedCount(conns, conn);
      assert Listed(s'.reg, p) == Removed(conns, conn) && Listed(s'.disconnected, p) == gone + [conn];
      CountDrop(multiset(Listed(s.arrived, p)), multiset(conns), multiset(Listed(s.evicted, p)), multiset(gone), conn);
    }
  }

  lemma CountDrop(arrived: multiset<Connection>, conns: multiset<Connection>, evicted: multiset<Connection>,
                  gone: multiset<Connection>, conn: Connection)
    requires arrived == conns + evicted + gone && conn in conns
    ensures arrived == (conns - multiset{conn}) + evicted + (gone + multiset{conn})
  {}

  /** Counting a connect: `conn` joins the arrivals and the list, `gone` leaves the list. */
  lemma CountConnect(arrived: multiset<Connection>, conns: multiset<Connection>, kept: multiset<Connection>,
                     gone: multiset<Connection>, evicted: multiset<Connection>, ended: multiset<Connection>,
                     conn: Connection)
    requires arrived == conns + evicted + ended && conns == gone + kept && conn !in arrived
    requires forall c :: arrived[c] <= 1
    ensures arrived + multiset{conn} == (kept + multiset{conn}) + (evicted + gone) + ended
    ensures forall c :: (arrived + multiset{conn})[c] <= 1
  {
    forall c
      ensures (arrived + multiset{conn})[c] <= 1
    {
      assert arrived[c] <= 1;
    }
  }

  lemma ListsAfterConnect(s: State, project: Project, conn: Connection)
    requires Enabled(s, Connect(project, conn))
    ensures var s', conns := Next(s, Connect(project, conn)), Listed(s.reg, project);
            Listed(s'.reg, project) == Kept(conns, conn.user) + [conn]
            && Listed(s'.arrived, project) == Listed(s.arrived, project) + [conn]
            && Listed(s'.evicted, project) == Listed(s.evicted, project) + Evicted(conns, conn.user)
            && Listed(s'.disconnected, project) == Listed(s.disconnected, project)
  {}

  lemma ConnectConserves(s: State, project: Project, conn: Connection)
    requires Conserved(s, project) && Enabled(s, Connect(project, conn))
    ensures Conserved(Next(s, Connect(project, conn)), project)
  {
    var conns := Listed(s.reg, project);
    ListsAfterConnect(s, project, conn);
    EvictConserves(conns, conn.user);
    CountConnect(multiset(Listed(s.arrived, project)), multiset(conns), multiset(Kept(conns, conn.user)),
                 multiset(Evicted(conns, conn.user)), multiset(Listed(s.evicted, project)),
                 multiset(Listed(s.disconnected, project)), conn);
  }

  lemma StepConserves(s: State, step: Step, p: Project)
    requires Conserved(s, p) && Enabled(s, step)
    ensures Conserved(Next(s, step), p)
  {
    match step
    case Connect(project, conn) => if project == p { ConnectConserves(s, p, conn); }
    case Disconnect(project, conn) => DropConserves(s, project, conn, p);
    case SendFail(id, conn) => DropConserves(Attempted(s, id, conn), s.publishes[id].project, conn, p);
    case _ =>
  }

  /** The connecting user's evicted and held connections together gain only the newcomer. */
  lemma ConnectAppends(evicted: seq<Connection>, own: seq<Connection>, kept: seq<Connection>,
                       gone: seq<Connection>, conn: Connection)
    requires own == gone + Of(kept, conn.user) && forall c | c in gone :: c.user == conn.user
    ensures Of(evicted + gone, conn.user) + Of(kept + [conn], conn.user) == Of(evicted, conn.user) + own + [conn]
  {
    OfOwn(gone, conn.user, conn.user);
    OfAppend(evicted, gone, conn.user);
    OfAppend(kept, [conn], conn.user);
  }

  /** Another user's view does not change at all. */
  lemma ConnectSpares(evicted: seq<Connection>, own: seq<Connection>, kept: seq<Connection>,
                      gone: seq<Connection>, conn: Connection, user: User)
    requires own == Of(kept, user) && user != conn.user && forall c | c in gone :: c.user == conn.user
    ensures Of(evicted + gone, user) + Of(kept + [conn], user) == Of(evicted, user) + own
  {
    OfOwn(gone, conn.user, user);
    OfAppend(evicted, gone, user);
    OfAppend(kept, [conn], user);
  }

  lemma OrderAfterConnect(arrived: seq<Connection>, evicted: seq<Connection>, own: seq<Connection>,
                          kept: seq<Connection>, gone: seq<Connection>, conn: Connection, user: User)
    requires Subsequence(Of(evicted, user) + own, Of(arrived, user))
    requires forall c | c in gone :: c.user == conn.user
    requires own == if user == conn.user then gone + Of(kept, user) else Of(kept, user)
    ensures Subsequence(Of(evicted + gone, user) + Of(kept + [conn], user), Of(arrived + [conn], user))
  {
    OfAppend(arrived, [conn], user);
    if user == conn.user {
      ConnectAppends(evicted, own, kept, gone, conn);
      SubsequenceAppend(Of(evicted, user) + own, Of(arrived, user), conn);
    } else {
      ConnectSpares(evicted, own, kept, gone, conn, user);
      assert Of(arrived, user) + [] == Of(arrived, user);
    }
  }

  lemma ConnectKeepsOrder(s: State, project: Project, conn: Connection, user: User)
    requires InOrder(s, project, user) && Enabled(s, Connect(project, conn))
    ensures InOrder(Next(s, Connect(project, conn)), project, user)
  {
    var conns := Listed(s.reg, project);
    EvictTakesTheOldest(conns, conn.user, user);
    EvictedAreTheUsers(conns, conn.user);
    OrderAfterConnect(Listed(s.arrived, project), Listed(s.evicted, project), Of(conns, user),
                      Kept(conns, conn.user), Evicted(conns, conn.user), conn, user);
  }

  lemma {:induction false} EvictedAreTheUsers(conns: seq<Connection>, user: User)
    ensures forall c | c in Evicted(conns, user) :: c.user == user
    decreases |conns|
  {
    if |Of(conns, user)| >= MAX_SOCKETS_PER_USER_PROJECT {
      EvictedAreTheUsers(Removed(conns, Of(conns, user)[0]), user);
    }
  }

  lemma {:induction false} OfOwn(conns: seq<Connection>, owner: User, user: User)
    requires forall c | c in conns :: c.user == owner
    ensures Of(conns, user) == if owner == user then conns else []
  {
    if conns != [] {
      OfOwn(conns[1..], owner, user);
    }
  }

  lemma DropKeepsOrder(s: State, project: Project, conn: Connection, p: Project, user: User)
    requires InOrder(s, p, user) && Conserved(s, p)
    ensures InOrder(Drop(s, project, conn), p, user)
  {
    DisconnectIsRemoval(s.reg, project, conn, p, user);
    if p == project && conn.user == user && conn in Listed(s.reg, p) {
      var gone, queue := Of(Listed(s.evicted, p), user), Queue(s, p, user);
      assert multiset(Listed(s.arrived, p))[conn] <= 1;
      assert conn !in gone;
      RemovedBehindAll(gone, queue, conn);
      SubsequenceRemoved(gone + queue, Of(Listed(s.arrived, p), user), conn);
    }
  }

  lemma StepKeepsOrder(s: State, step: Step, p: Project, user: User)
    requires InOrder(s, p, user) && Conserved(s, p) && Enabled(s, step)
    ensures InOrder(Next(s, step), p, user)
  {
    match step
    case Connect(project, conn) => if project == p { ConnectKeepsOrder(s, project, conn, user); }
    case Disconnect(project, conn) => DropKeepsOrder(s, project, conn, p, user);
    case SendFail(id, conn) => DropKeepsOrder(Attempted(s, id, conn), s.publishes[id].project, conn, p, user);
    case _ =>
  }

  lemma AttemptKeepsFanout(f: Fanout, conn: Connection)
    requires FanoutInv(f) && conn in f.remaining
    ensures FanoutInv(f.(remaining := Removed(f.remaining, conn), attempted := f.attempted + [conn]))
  {
    RemovedCount(f.remaining, conn);
  }

  lemma NewFanout(s: State, project: Project)
    requires Conserved(s, project)
    ensures FanoutInv(Fanout(project, Listed(s.reg, project), Listed(s.reg, project), []))
  {
    forall c
      ensures multiset(Listed(s.reg, project))[c] <= 1
    {
      assert multiset(Listed(s.arrived, project))[c] <= 1;
    }
  }

  lemma StepKeepsFanouts(s: State, step: Step, id: PublishId)
    requires Enabled(s, step) && id in Next(s, step).publishes
    requires id in s.publishes ==> FanoutInv(s.publishes[id])
    requires forall project :: Conserved(s, project)
    ensures FanoutInv(Next(s, step).publishes[id])
  {
    if id !in s.publishes {
      NewFanout(s, step.project);
    } else if (step.SendOk? || step.SendFail?) && step.id == id {
      AttemptKeepsFanout(s.publishes[id], step.conn);
    }
  }

  lemma {:induction false} RunKeepsInv(tr: seq<State>, steps: seq<Step>, i: nat)
    requires IsRun(tr, steps) && i < |tr|
    ensures Inv(tr[i])
  {
    if i > 0 {
      RunKeepsInv(tr, steps, i - 1);
      var s, step := tr[i - 1], steps[i - 1];
      StepKeepsCap(s, step);
      forall project ensures Conserved(tr[i], project) { StepConserves(s, step, project); }
      forall project, user ensures InOrder(tr[i], project, user) { StepKeepsOrder(s, step, project, user); }
      forall id | id in tr[i].publishes ensures FanoutInv(tr[i].publishes[id]) { StepKeepsFanouts(s, step, id); }
    }
  }

  // ----- what every run shows -----

  /** At most five connections a user and project, no empty list, in arrival order and behind
      everything evicted; and each arrival is still registered or has ended exactly once. */
  lemma EveryReachableRegistry(tr: seq<State>, steps: seq<Step>, i: nat, project: Project, user: User, c: Connection)
    requires IsRun(tr, steps) && i < |tr|
    ensures |Queue(tr[i], project, user)| <= 5
    ensures project in tr[i].reg ==> tr[i].reg[project] != []
    ensures Subsequence(Of(Listed(tr[i].evicted, project), user) + Queue(tr[i], project, user),
                        Of(Listed(tr[i].arrived, project), user))
    ensures multiset(Listed(tr[i].reg, project))[c] + multiset(Listed(tr[i].evicted, project))[c]
            + multiset(Listed(tr[i].disconnected, project))[c] == if c in Listed(tr[i].arrived, project) then 1 else 0
  {
    RunKeepsInv(tr, steps, i);
    assert Conserved(tr[i], project) && InOrder(tr[i], project, user);
    assert multiset(Listed(tr[i].arrived, project))[c] <= 1;
  }

  /** A publish attempts each connection of its snapshot once and nothing else, whatever happens to
      the registry meanwhile. */
  lemma PublishAttemptsItsSnapshotOnce(tr: seq<State>, steps: seq<Step>, i: nat, id: PublishId, c: Connection)
    requires IsRun(tr, steps) && i < |tr| && id in tr[i].publishes && tr[i].publishes[id].remaining == []
    ensures multiset(tr[i].publishes[id].attempted)[c] == if c in tr[i].publishes[id].snapshot then 1 else 0
  {
    RunKeepsInv(tr, steps, i);
    var f := tr[i].publishes[id];
    assert FanoutInv(f) && multiset(f.snapshot)[c] <= 1;
  }

  /** What is sent to is the project's list at the moment the publish began. */
  lemma {:induction false} SnapshotIsTheListThen(tr: seq<State>, steps: seq<Step>, i: nat, id: PublishId)
      returns (j: nat)
    requires IsRun(tr, steps) && i < |tr| && id in tr[i].publishes
    ensures j < i && steps[j].Publish? && steps[j].id == id
    ensures tr[i].publishes[id].project == steps[j].project
    ensures tr[i].publishes[id].snapshot == Listed(tr[j].reg, steps[j].project)
  {
    var s, step := tr[i - 1], steps[i - 1];
    assert tr[i] == Next(s, step);
    if id in s.publishes {
      j := SnapshotIsTheListThen(tr, steps, i - 1, id);
    } else {
      j := i - 1;
    }
  }

  lemma ListAfterDisconnect(reg: Registry, p: Project, conn: Connection, project: Project)
    ensures Listed(Disconnected(reg, p, conn), project) ==
            if p == project then Removed(Listed(reg, project), conn) else Listed(reg, project)
  {}

  lemma RemovedCountAt(conns: seq<Connection>, gone: Connection, c: Connection)
    ensures multiset(Removed(conns, gone))[c] == multiset(conns)[c] - if c == gone && gone in conns then 1 else 0
  {
    RemovedCount(conns, gone);
  }

  /** Of a publish's steps only a failed send changes the registry, and only by dropping that
      connection from the project published to. */
  lemma PublishDropsOnlyFailures(s: State, step: Step, project: Project, c: Connection)
    requires Enabled(s, step) && (step.Publish? || step.SendOk? || step.SendFail?)
    ensures multiset(Listed(Next(s, step).reg, project))[c] ==
            multiset(Listed(s.reg, project))[c]
            - if step == SendFail(step.id, c) && s.publishes[step.id].project == project
                 && c in Listed(s.reg, project) then 1 else 0
  {
    if step.SendFail? {
      RemovedCountAt(Listed(s.reg, project), step.conn, c);
      ListAfterDisconnect(s.reg, s.publishes[step.id].project, step.conn, project);
    }
  }

  lemma StepKeepsLatest(s: State, step: Step, project: Project, user: User)
    requires Enabled(s, step) && Listed(Next(s, step).disconnected, project) == []
    requires Queue(s, project, user) == Latest(Of(Listed(s.arrived, project), user), MAX_SOCKETS_PER_USER_PROJECT)
    ensures var s' := Next(s, step);
            Queue(s', project, user) == Latest(Of(Listed(s'.arrived, project), user), MAX_SOCKETS_PER_USER_PROJECT)
  {
    StepRefinesFifo(s, step, project, user);
    if step.Connect? {
      ConnectArrives(s, step.project, step.conn, project, user);
      if step.project == project && step.conn.user == user {
        LatestAppend(Of(Listed(s.arrived, project), user), step.conn);
      }
    }
  }

  lemma ConnectArrives(s: State, p: Project, conn: Connection, project: Project, user: User)
    requires Enabled(s, Connect(p, conn))
    ensures Of(Listed(Next(s, Connect(p, conn)).arrived, project), user) ==
            if p == project && conn.user == user then Of(Listed(s.arrived, project), user) + [conn]
            else Of(Listed(s.arrived, project), user)
  {
    OfAppend(Listed(s.arrived, project), [conn], user);
    assert Of(Listed(s.arrived, project), user) + [] == Of(Listed(s.arrived, project), user);
  }

  lemma LatestAppend(own: seq<Connection>, conn: Connection)
    ensures Latest(Latest(own, MAX_SOCKETS_PER_USER_PROJECT) + [conn], MAX_SOCKETS_PER_USER_PROJECT) ==
            Latest(own + [conn], MAX_SOCKETS_PER_USER_PROJECT)
  {}

  /** While nothing is disconnected from a project, each of its users holds just the latest five
      of their arrivals. */
  lemma LatestArrivalsAreHeld(tr: seq<State>, steps: seq<Step>, i: nat, project: Project, user: User)
    requires IsRun(tr, steps) && i < |tr| && Listed(tr[i].disconnected, project) == []
    ensures Queue(tr[i], project, user) == Latest(Of(Listed(tr[i].arrived, project), user), 5)
  {
    LatestAreHeld(tr, steps, i, project, user);
  }

  lemma {:induction false} LatestAreHeld(tr: seq<State>, steps: seq<Step>, i: nat, project: Project, user: User)
    requires IsRun(tr, steps) && i < |tr| && Listed(tr[i].disconnected, project) == []
    ensures Queue(tr[i], project, user) ==
            Latest(Of(Listed(tr[i].arrived, project), user), MAX_SOCKETS_PER_USER_PROJECT)
  {
    if i > 0 {
      LatestAreHeld(tr, steps, i - 1, project, user);
      StepKeepsLatest(tr[i - 1], steps[i - 1], project, user);
    }
  }

  // ----- a publish that nothing interrupts -----

  /** The connections whose send did not fail, in order. */
  function Surviving(conns: seq<Connection>, fails: set<Connection>): (rest: seq<Connection>)
    ensures forall c | c in rest :: c in conns && c !in fails
  {
    if conns == [] then []
    else
      var last := conns[|conns| - 1];
      Surviving(conns[..|conns| - 1], fails) + if last in fails then [] else [last]
  }

  lemma NextSend(conns: seq<Connection>, fails: set<Connection>, k: nat)
    requires k < |conns| && forall i, j | 0 <= i < j < |conns| :: conns[i] != conns[j]
    ensures var before := Surviving(conns[..k], fails) + conns[k..];
            Surviving(conns[..k + 1], fails) + conns[k + 1..] ==
            if conns[k] in fails then Removed(before, conns[k]) else before
  {
    var c, survived, left, rest := conns[k], Surviving(conns[..k], fails), conns[k..], conns[k + 1..];
    assert conns[..k + 1][..k] == conns[..k] && conns[..k + 1][k] == c;
    assert left[0] == c && left[1..] == rest;
    if c in fails {
      RemovedBehindAll(survived, left, c);
      assert survived + [] == survived;
    } else {
      assert left == [c] + rest;
      Rejoined(survived, c, rest);
    }
  }

  lemma Rejoined(a: seq<Connection>, c: Connection, b: seq<Connection>)
    ensures (a + [c]) + b == a + ([c] + b)
  {}

  lemma {:induction false} SendsSoFar(reg: Registry, project: Project, fails: set<Connection>, k: nat, p: Project)
    requires k <= |Listed(reg, project)|
    requires forall i, j | 0 <= i < j < |Listed(reg, project)| :: Listed(reg, project)[i] != Listed(reg, project)[j]
    ensures var conns := Listed(reg, project);
            Listed(DropFailing(reg, project, conns[..k], fails), p) ==
            if p == project then Surviving(conns[..k], fails) + conns[k..] else Listed(reg, p)
  {
    var conns := Listed(reg, project);
    if k == 0 {
      assert conns[..0] == [] && conns[0..] == conns;
    } else {
      SendsSoFar(reg, project, fails, k - 1, p);
      NextSend(conns, fails, k - 1);
      assert conns[..k][..k - 1] == conns[..k - 1];
      ListAfterDisconnect(DropFailing(reg, project, conns[..k - 1], fails), project, conns[k - 1], p);
    }
  }

  /** It leaves the project the connections whose send did not fail, in their order, and every other
      project its own. */
  lemma PublishLeavesTheSurvivors(reg: Registry, project: Project, fails: set<Connection>, p: Project)
    requires forall i, j | 0 <= i < j < |Listed(reg, project)| :: Listed(reg, project)[i] != Listed(reg, project)[j]
    ensures Listed(DropFailing(reg, project, Listed(reg, project), fails), p) ==
            if p == project then Surviving(Listed(reg, project), fails) else Listed(reg, p)
  {
    var conns := Listed(reg, project);
    SendsSoFar(reg, project, fails, |conns|, p);
    assert conns[..|conns|] == conns && conns[|conns|..] == [];
  }
}
