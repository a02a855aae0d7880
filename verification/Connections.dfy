/** The two connection maps of the in-memory control plane (services/api/src/control-plane-agents.ts). */
module Connections {

  /** `hosts` maps a connection to its host, `current` a host to its connection. */
  datatype State = State(hosts: map<string, string>, current: map<string, string>, disconnected: set<string>)

  function Drop(m: map<string, string>, key: string): map<string, string> { m - {key} }

  predicate Refused(st: State, host: string, replace: bool) { host in st.current && !replace }

  function Register(st: State, host: string, conn: string, replace: bool): State {
    if Refused(st, host, replace) then st
    else
      var hosts := if host in st.current then Drop(st.hosts, st.current[host]) else st.hosts;
      State(hosts[conn := host], st.current[host := conn], st.disconnected - {host})
  }

  /** A connection that is not known any more is ignored; a known one marks its host disconnected. */
  function Disconnect(st: State, conn: string): State {
    if conn !in st.hosts then st
    else
      var host := st.hosts[conn];
      State(Drop(st.hosts, conn),
            if host in st.current && st.current[host] == conn then Drop(st.current, host) else st.current,
            st.disconnected + {host})
  }

  /** A registration that fails after it was installed: only its own connection is taken back. */
  function Restore(st: State, host: string, failed: string): State {
    var next := st.(hosts := Drop(st.hosts, failed));
    if host in st.current && st.current[host] == failed then
      next.(current := Drop(st.current, host), disconnected := st.disconnected + {host})
    else next
  }

  datatype Action =
    | Connect(host: string, conn: string, replace: bool)
    | Close(conn: string)
    | TakeBack(host: string, conn: string)

  function Step(st: State, a: Action): State {
    match a
    case Connect(host, conn, replace) => Register(st, host, conn, replace)
    case Close(conn) => Disconnect(st, conn)
    case TakeBack(host, conn) => Restore(st, host, conn)
  }

  function Run(st: State, acts: seq<Action>): State {
    if acts == [] then st else Step(Run(st, acts[..|acts| - 1]), acts[|acts| - 1])
  }

  /** The maps are inverse to each other, and a connected host is not marked disconnected. */
  ghost predicate Inverse(st: State) {
    && (forall conn :: conn in st.hosts ==> st.hosts[conn] in st.current && st.current[st.hosts[conn]] == conn)
    && (forall host :: host in st.current ==> st.current[host] in st.hosts && st.hosts[st.current[host]] == host)
    && (forall host :: host in st.current ==> host !in st.disconnected)
  }

  /** The connection id belongs to no other host, and a registration is taken back from its own host. */
  ghost predicate OwnConnection(st: State, a: Action) {
    match a
    case Connect(host, conn, replace) => Refused(st, host, replace) || (conn in st.hosts ==> st.hosts[conn] == host)
    case Close(_) => true
    case TakeBack(host, conn) => conn in st.hosts ==> st.hosts[conn] == host
  }

  /** A step keeps the maps inverse exactly when it does not act on another host's connection. */
  lemma StepKeepsInverse(st: State, a: Action)
    requires Inverse(st)
    ensures Inverse(Step(st, a)) <==> OwnConnection(st, a)
  {
    var next := Step(st, a);
    if !OwnConnection(st, a) {
      var other := st.hosts[a.conn];
      assert other != a.host && st.current[other] == a.conn;
      assert other in next.current && next.current[other] == a.conn;
    }
  }

  ghost predicate OwnRun(st: State, acts: seq<Action>) {
    acts == [] || (OwnRun(st, acts[..|acts| - 1]) && OwnConnection(Run(st, acts[..|acts| - 1]), acts[|acts| - 1]))
  }

  lemma {:induction false} RunKeepsInverse(st: State, acts: seq<Action>)
    requires Inverse(st) && OwnRun(st, acts)
    ensures Inverse(Run(st, acts))
  {
    hide Inverse, Step, OwnConnection;
    if acts != [] {
      RunKeepsInverse(st, acts[..|acts| - 1]);
      StepKeepsInverse(Run(st, acts[..|acts| - 1]), acts[|acts| - 1]);
    }
  }

  const EMPTY := State(map[], map[], {})

  /** In every run a closing socket matters exactly if it is the current one of its host; a replaced one does nothing. */
  lemma ReplacedSocketIsIgnored(acts: seq<Action>, host: string, conn: string)
    requires OwnRun(EMPTY, acts)
    ensures var st := Run(EMPTY, acts);
            && (Disconnect(st, conn) != st <==> exists h :: h in st.current && st.current[h] == conn)
            && (host in st.current && st.current[host] != conn ==>
                  host in Disconnect(st, conn).current && Disconnect(st, conn).current[host] == st.current[host]
                  && host !in Disconnect(st, conn).disconnected)
  {
    RunKeepsInverse(EMPTY, acts);
    var st := Run(EMPTY, acts);
    if conn in st.hosts {
      assert st.current[st.hosts[conn]] == conn;
      assert conn !in Disconnect(st, conn).hosts;
    }
  }

  /** After a replacement, closing the socket that was replaced changes nothing. */
  lemma ReplacementOutlivesOldSocket(acts: seq<Action>, host: string, conn: string)
    requires OwnRun(EMPTY, acts) && host in Run(EMPTY, acts).current
    requires conn !in Run(EMPTY, acts).hosts
    ensures var st := Run(EMPTY, acts);
            var replaced := Register(st, host, conn, true);
            Disconnect(replaced, st.current[host]) == replaced && replaced.current[host] == conn
  {
    RunKeepsInverse(EMPTY, acts);
  }

  /** Everything about hosts other than `host` and connections other than the given ones is the same. */
  ghost predicate Elsewhere(st: State, next: State, host: string, conns: set<string>) {
    && (forall h :: h != host ==> (h in next.current <==> h in st.current) && (h in next.disconnected <==> h in st.disconnected))
    && (forall h :: h != host && h in st.current ==> next.current[h] == st.current[h])
    && (forall c :: c !in conns ==> (c in next.hosts <==> c in st.hosts))
    && (forall c :: c !in conns && c in st.hosts ==> next.hosts[c] == st.hosts[c])
  }

  /** A host takes its first connection, or a replacement; without leave to replace, a live connection stays. */
  lemma ConnectEffect(st: State, host: string, conn: string, replace: bool)
    ensures var next := Step(st, Connect(host, conn, replace));
            if host in st.current && !replace then next == st
            else
              && host in next.current && next.current[host] == conn && host !in next.disconnected
              && conn in next.hosts && next.hosts[conn] == host
              && (host in st.current && st.current[host] != conn ==> st.current[host] !in next.hosts)
              && Elsewhere(st, next, host, if host in st.current then {conn, st.current[host]} else {conn})
  {
  }

  /** In every run, closing the current socket of a host disconnects that host, and it may connect again at once. */
  lemma CloseEffect(acts: seq<Action>, host: string)
    requires OwnRun(EMPTY, acts) && host in Run(EMPTY, acts).current
    ensures var st := Run(EMPTY, acts);
            var next := Step(st, Close(st.current[host]));
            && host !in next.current && host in next.disconnected && st.current[host] !in next.hosts
            && Elsewhere(st, next, host, {st.current[host]})
            && forall conn, replace :: host in Step(next, Connect(host, conn, replace)).current
  {
    RunKeepsInverse(EMPTY, acts);
  }

  /** A failed registration leaves its host disconnected, unless another connection has taken it over meanwhile. */
  lemma TakeBackEffect(st: State, host: string, failed: string)
    ensures var next := Step(st, TakeBack(host, failed));
            && failed !in next.hosts && Elsewhere(st, next, host, {failed})
            && (if host in st.current && st.current[host] == failed then host !in next.current && host in next.disconnected
                else next.current == st.current && next.disconnected == st.disconnected)
  {
  }

  class ConnectionTable {
    var hosts: map<string, string>
    var current: map<string, string>
    var disconnected: set<string>

    function Model(): State
      reads this
    {
      State(hosts, current, disconnected)
    }

    method RegisterHost(host: string, conn: string, replace: bool) returns (ok: bool)
      modifies this
      ensures ok == !Refused(old(Model()), host, replace) && Model() == Register(old(Model()), host, conn, replace)
    {
      if host in current && !replace {
        return false;
      }
      if host in current {
        hosts := hosts - {current[host]};
        current := current - {host};
      }
      hosts := hosts[conn := host];
      current := current[host := conn];
      disconnected := disconnected - {host};
      assert current == old(current)[host := conn];
      return true;
    }

    method DisconnectHost(conn: string)
      modifies this
      ensures Model() == Disconnect(old(Model()), conn)
    {
      if conn !in hosts {
        return;
      }
      var host := hosts[conn];
      hosts := hosts - {conn};
      if host in current && current[host] == conn {
        current := current - {host};
      }
      disconnected := disconnected + {host};
    }

    method RestoreRegistration(host: string, failed: string)
      modifies this
      ensures Model() == Restore(old(Model()), host, failed)
    {
      var winnerOwnsHost := host !in current || current[host] != failed;
      hosts := hosts - {failed};
      if !winnerOwnsHost {
        current := current - {host};
        disconnected := disconnected + {host};
      }
    }
  }
}
