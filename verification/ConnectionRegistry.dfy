/** The in-process socket registry: one list of connections a project, a per-user cap with
    eviction of the oldest, and fan-out to a snapshot. */
module ConnectionRegistry {

  type Project = nat
  type User = nat
  type Socket = nat

  const MAX_SOCKETS_PER_USER_PROJECT: nat := 5

  /** A connection is told from every other by its socket. */
  datatype Connection = Connection(ws: Socket, user: User)

  /** The project lists. */
  type Registry = map<Project, seq<Connection>>

  function Listed(reg: Registry, project: Project): seq<Connection> {
    if project in reg then reg[project] else []
  }

  /** One user's connections, oldest first. */
  function Of(conns: seq<Connection>, user: User): (own: seq<Connection>)
    ensures |own| <= |conns|
    ensures forall c | c in own :: c in conns && c.user == user
    ensures forall c | c in conns && c.user == user :: c in own
  {
    if conns == [] then []
    else if conns[0].user == user then [conns[0]] + Of(conns[1..], user)
    else Of(conns[1..], user)
  }

  /** `list.remove`: the first occurrence goes. */
  function Removed(conns: seq<Connection>, c: Connection): (rest: seq<Connection>)
    ensures c in conns ==> |rest| == |conns| - 1
    ensures c !in conns ==> rest == conns
  {
    if conns == [] then []
    else if conns[0] == c then conns[1..]
    else [conns[0]] + Removed(conns[1..], c)
  }

  /** The list once the user has room for one more. */
  function Kept(conns: seq<Connection>, user: User): seq<Connection>
    decreases |conns|
  {
    if |Of(conns, user)| < MAX_SOCKETS_PER_USER_PROJECT then conns
    else Kept(Removed(conns, Of(conns, user)[0]), user)
  }

  /** What is evicted to make that room. */
  function Evicted(conns: seq<Connection>, user: User): seq<Connection>
    decreases |conns|
  {
    if |Of(conns, user)| < MAX_SOCKETS_PER_USER_PROJECT then []
    else [Of(conns, user)[0]] + Evicted(Removed(conns, Of(conns, user)[0]), user)
  }

  function Connected(reg: Registry, project: Project, c: Connection): Registry {
    reg[project := Kept(Listed(reg, project), c.user) + [c]]
  }

  function Disconnected(reg: Registry, project: Project, c: Connection): Registry {
    if project !in reg then reg
    else
      var rest := Removed(reg[project], c);
      if rest == [] then reg - {project} else reg[project := rest]
  }

  class InProcessConnectionManager {
    var connections: Registry

    constructor ()
      ensures connections == map[]
    {
      connections := map[];
    }

    /** Registers the socket; the evicted connections are then closed with code 4409. */
    method Connect(project: Project, user: User, ws: Socket) returns (conn: Connection, evicted: seq<Connection>)
      modifies this
      ensures conn == Connection(ws, user)
      ensures connections == Connected(old(connections), project, conn)
      ensures evicted == Evicted(Listed(old(connections), project), user)
    {
      var conns := Listed(connections, project);
      conn := Connection(ws, user);
      evicted := [];
      while |Of(conns, user)| >= MAX_SOCKETS_PER_USER_PROJECT
        invariant Kept(Listed(connections, project), user) == Kept(conns, user)
        invariant Evicted(Listed(connections, project), user) == evicted + Evicted(conns, user)
        decreases |conns|
      {
        var oldest := Of(conns, user)[0];
        conns := Removed(conns, oldest);
        evicted := evicted + [oldest];
      }
      conns := conns + [conn];
      connections := connections[project := conns];
    }

    method Disconnect(project: Project, conn: Connection)
      modifies this
      ensures connections == Disconnected(old(connections), project, conn)
    {
      if project !in connections {
        return;
      }
      var conns := connections[project];
      if conn in conns {
        conns := Removed(conns, conn);
      }
      connections := connections[project := conns];
      if conns == [] {
        connections := connections - {project};
        assert connections == old(connections) - {project};
      }
    }

    /** A publish that nothing interrupts: every listed connection is tried once, and those whose
        send fails are dropped. */
    method Publish(project: Project, fails: set<Connection>) returns (attempted: seq<Connection>)
      modifies this
      ensures attempted == Listed(old(connections), project)
      ensures connections == DropFailing(old(connections), project, attempted, fails)
    {
      var conns := Listed(connections, project);
      attempted := [];
      for i := 0 to |conns|
        invariant attempted == conns[..i]
        invariant connections == DropFailing(old(connections), project, conns[..i], fails)
      {
        assert conns[..i + 1] == conns[..i] + [conns[i]];
        attempted := attempted + [conns[i]];
        if conns[i] in fails {
          Disconnect(project, conns[i]);
        }
      }
      assert conns[..|conns|] == conns;
    }
  }

  /** The registry after sends to `tried`, in order, of which those in `fails` raised. */
  function DropFailing(reg: Registry, project: Project, tried: seq<Connection>, fails: set<Connection>): Registry {
    if tried == [] then reg
    else
      var before, c := DropFailing(reg, project, tried[..|tried| - 1], fails), tried[|tried| - 1];
      if c in fails then Disconnected(before, project, c) else before
  }

  // ----- lists -----

  lemma {:induction false} OfAppend(a: seq<Connection>, b: seq<Connection>, user: User)
    ensures Of(a + b, user) == Of(a, user) + Of(b, user)
  {
    if a == [] {
      assert a + b == b;
    } else {
      assert (a + b)[1..] == a[1..] + b;
      OfAppend(a[1..], b, user);
    }
  }

  /** Removing a connection removes it from its own user's view and from no other. */
  lemma {:induction false} OfRemoved(conns: seq<Connection>, c: Connection, user: User)
    ensures Of(Removed(conns, c), user) == if c.user == user then Removed(Of(conns, user), c) else Of(conns, user)
  {
    if conns != [] && conns[0] != c {
      OfRemoved(conns[1..], c, user);
      OfAppend([conns[0]], Removed(conns[1..], c), user);
      RemovedBehind(conns[0], Of(conns[1..], user), c);
    }
  }

  lemma RemovedBehind(first: Connection, rest: seq<Connection>, c: Connection)
    requires first != c
    ensures Removed([first] + rest, c) == [first] + Removed(rest, c)
  {
    assert ([first] + rest)[1..] == rest;
  }

  /** The last `n` elements. */
  function Latest(s: seq<Connection>, n: nat): seq<Connection> {
    if |s| <= n then s else s[|s| - n..]
  }

  /** Eviction takes the user's oldest connections, just enough of them, and nobody else's. */
  lemma {:induction false} EvictTakesTheOldest(conns: seq<Connection>, user: User, other: User)
    ensures Of(conns, user) == Evicted(conns, user) + Of(Kept(conns, user), user)
    ensures Of(Kept(conns, user), user) == Latest(Of(conns, user), MAX_SOCKETS_PER_USER_PROJECT - 1)
    ensures other != user ==> Of(Kept(conns, user), other) == Of(conns, other)
    decreases |conns|
  {
    var own := Of(conns, user);
    if |own| >= MAX_SOCKETS_PER_USER_PROJECT {
      var rest := Removed(conns, own[0]);
      OldestGoes(conns, user, other);
      EvictTakesTheOldest(rest, user, other);
      assert own == [own[0]] + own[1..];
    }
  }

  lemma OldestGoes(conns: seq<Connection>, user: User, other: User)
    requires Of(conns, user) != []
    ensures var rest := Removed(conns, Of(conns, user)[0]);
            Of(rest, user) == Of(conns, user)[1..] && (other != user ==> Of(rest, other) == Of(conns, other))
  {
    var oldest := Of(conns, user)[0];
    OfRemoved(conns, oldest, user);
    OfRemoved(conns, oldest, other);
  }

  /** A connect appends to its user's queue and keeps the latest five; every other queue stays. */
  lemma ConnectIsBoundedEnqueue(reg: Registry, project: Project, c: Connection, p: Project, user: User)
    ensures Of(Listed(Connected(reg, project, c), p), user) ==
            if p == project && user == c.user
            then Latest(Of(Listed(reg, p), user) + [c], MAX_SOCKETS_PER_USER_PROJECT)
            else Of(Listed(reg, p), user)
  {
    if p == project {
      var conns := Listed(reg, project);
      var kept := Kept(conns, c.user);
      EvictTakesTheOldest(conns, c.user, user);
      OfAppend(kept, [c], user);
    }
  }

  /** A disconnect takes one connection out of one queue, or does nothing. */
  lemma DisconnectIsRemoval(reg: Registry, project: Project, c: Connection, p: Project, user: User)
    ensures Of(Listed(Disconnected(reg, project, c), p), user) ==
            if p == project && user == c.user then Removed(Of(Listed(reg, p), user), c) else Of(Listed(reg, p), user)
  {
    if p == project {
      OfRemoved(Listed(reg, p), c, user);
    }
  }
}
