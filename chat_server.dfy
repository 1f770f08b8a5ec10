/**
  The sequential core of the multi-client chat server: the registry of
  connected sessions (connection -> display name, in registration order, as a
  Python dict keeps it), broadcast to a snapshot of the registry, idempotent
  removal with a leave notice, whisper routing, the per-session line loop and
  shutdown.

  Connections are abstract ids.  Every `sendall` is one entry of the server's
  delivery log; whether it goes through is decided by the oracle
  `ok(conn, k)`, where `k` is the index of that attempt in the log, except
  that a write to a connection the server has already closed always fails.
  Reads are the session's input chunks, given up front.
 */
module ChatServer {
  import opened Wrappers
  import opened Text
  import opened Seqs

  type ConnId = nat

  /** Whether the write attempt number `k` to a connection goes through. */
  type WriteOracle = (ConnId, nat) -> bool

  /** One registry entry. */
  datatype ClientRecord = ClientRecord(conn: ConnId, name: string)

  /** One attempted `sendall`. */
  datatype Delivery = Delivery(conn: ConnId, text: string, delivered: bool)

  /** What the server keeps: the registry, the connections it closed, and every write it attempted. */
  datatype Server = Server(clients: seq<ClientRecord>, closed: set<ConnId>, log: seq<Delivery>)

  /**
    One `recv` on the session's connection: data that decodes as UTF-8, an
    orderly close (`b''`), a reset, or bytes `decode('utf-8')` rejects. The
    `UnicodeDecodeError` of the last passes the `ConnectionResetError`
    handler, so only the `finally` clause runs, as after a reset.
   */
  datatype Chunk = Data(text: string) | Eof | Reset | Undecodable

  /** How an input line is handled. */
  datatype LineKind = QuitLine | WhisperLine | PlainLine

  /** The state after a step and whether the session may go on. */
  datatype Step = Step(state: Server, alive: bool)

  // The protocol's fixed texts.
  const QuitKeyword: string := "/종료"
  const WhisperPrefix: string := "/w "
  const NamePrompt: string := "사용자 이름을 입력하세요: "
  const UsageHint: string := "안내: /종료 입력 시 연결이 종료됩니다. 귓속말은 /w 대상이름 내용.\n"
  const ClosingNotice: string := "서버 연결을 종료합니다.\n"
  const WhisperUsage: string := "서버: 사용법: /w 대상이름 내용\n"
  const WhisperFailed: string := "서버: 귓속말 전송에 실패했습니다.\n"

  function JoinNotice(name: string): string { "\U{1F4E2} " + name + "님이 입장하셨습니다." }
  function LeaveNotice(name: string): string { "\U{1F44B} " + name + "님이 퇴장하셨습니다." }
  function ChatLine(name: string, text: string): string { name + ": " + text }
  function NotFound(target: string): string { "서버: " + target + " 사용자를 찾을 수 없습니다.\n" }
  function WhisperToTarget(sender: string, message: string): string {
    "(귓속말) " + sender + ": " + message + "\n"
  }
  function WhisperToSender(sender: string, target: string, message: string): string {
    "(귓속말 전송됨) " + sender + " -> " + target + ": " + message + "\n"
  }

  /** A line of the delivery log shaped like a leave notice. */
  predicate IsLeaveLine(text: string) {
    StartsWith(text, "\U{1F44B} ") && EndsWith(text, "님이 퇴장하셨습니다.\n")
  }

  /** Every entry of `log` from index `from` on is a leave notice. */
  ghost predicate OnlyLeavesFrom(log: seq<Delivery>, from: nat) {
    forall j :: from <= j < |log| ==> IsLeaveLine(log[j].text)
  }

  lemma LeaveNoticeIsLeaveLine(name: string)
    ensures IsLeaveLine(LeaveNotice(name) + "\n")
  {
    var t := LeaveNotice(name) + "\n";
    assert t == "\U{1F44B} " + (name + "님이 퇴장하셨습니다.\n");
    assert t == ("\U{1F44B} " + name) + "님이 퇴장하셨습니다.\n";
  }

  // ---------------------------------------------------------------------
  // The registry

  /** The registered connections, in registration order. */
  function Conns(clients: seq<ClientRecord>): (cs: seq<ConnId>)
    ensures |cs| == |clients|
    ensures forall i :: 0 <= i < |clients| ==> cs[i] == clients[i].conn
  {
    seq(|clients|, i requires 0 <= i < |clients| => clients[i].conn)
  }

  predicate Registered(clients: seq<ClientRecord>, c: ConnId) {
    exists i :: 0 <= i < |clients| && clients[i].conn == c
  }

  /** The registry's keys are unique, as a dict's are. */
  ghost predicate UniqueConns(clients: seq<ClientRecord>) {
    forall i, j :: 0 <= i < j < |clients| ==> clients[i].conn != clients[j].conn
  }

  /** The name registered for `c`, if any. */
  function NameOf(clients: seq<ClientRecord>, c: ConnId): (r: Option<string>)
    ensures r.None? <==> !Registered(clients, c)
    ensures r.Some? ==> ClientRecord(c, r.value) in clients
  {
    if clients == [] then None
    else if clients[0].conn == c then Some(clients[0].name)
    else
      var r := NameOf(clients[1..], c);
      assert Registered(clients[1..], c) ==> Registered(clients, c) by {
        if Registered(clients[1..], c) {
          var i :| 0 <= i < |clients[1..]| && clients[1..][i].conn == c;
          assert clients[i + 1].conn == c;
        }
      }
      r
  }

  /** `clients[conn] = name`: a new key goes last, an existing key keeps its place. */
  function Register(clients: seq<ClientRecord>, conn: ConnId, name: string): seq<ClientRecord> {
    if Registered(clients, conn) then Rename(clients, conn, name)
    else clients + [ClientRecord(conn, name)]
  }

  /** Every entry of `conn` gets `name`; the order is kept. */
  function Rename(clients: seq<ClientRecord>, conn: ConnId, name: string): (r: seq<ClientRecord>)
    ensures |r| == |clients|
    ensures forall i :: 0 <= i < |r| ==> r[i].conn == clients[i].conn
  {
    if clients == [] then []
    else [if clients[0].conn == conn then ClientRecord(conn, name) else clients[0]] + Rename(clients[1..], conn, name)
  }

  /** Entries that do not belong to `c`. */
  function NotOf(c: ConnId): ClientRecord -> bool {
    (r: ClientRecord) => r.conn != c
  }

  /** The registry without the entry of `c` (`clients.pop(conn)`). */
  function Without(clients: seq<ClientRecord>, c: ConnId): seq<ClientRecord> {
    Filter(clients, NotOf(c))
  }

  /** The first registered connection whose name equals `name` exactly. */
  function FindConn(clients: seq<ClientRecord>, name: string): (r: Option<ConnId>)
    ensures r.None? ==> forall i :: 0 <= i < |clients| ==> clients[i].name != name
    ensures r.Some? ==> exists i :: 0 <= i < |clients| && clients[i] == ClientRecord(r.value, name)
                          && forall j :: 0 <= j < i ==> clients[j].name != name
  {
    if clients == [] then None
    else if clients[0].name == name then
      assert clients[0] == ClientRecord(clients[0].conn, name);
      Some(clients[0].conn)
    else
      var r := FindConn(clients[1..], name);
      if r.Some? then
        var i :| 0 <= i < |clients[1..]| && clients[1..][i] == ClientRecord(r.value, name)
                 && forall j :: 0 <= j < i ==> clients[1..][j].name != name;
        assert clients[i + 1] == ClientRecord(r.value, name);
        assert forall j :: 0 <= j < i + 1 ==> clients[j].name != name by {
          forall j | 0 <= j < i + 1 ensures clients[j].name != name {
            if j > 0 { assert clients[j] == clients[1..][j - 1]; }
          }
        }
        r
      else
        r
  }

  // ---------------------------------------------------------------------
  // Writes

  /** Whether a write to `c` now goes through. */
  function Delivered(st: Server, c: ConnId, ok: WriteOracle): bool {
    c !in st.closed && ok(c, |st.log|)
  }

  /** One `sendall` of `text` to `c`, logged whatever its outcome. */
  function Attempt(st: Server, c: ConnId, text: string, ok: WriteOracle): Server {
    st.(log := st.log + [Delivery(c, text, Delivered(st, c, ok))])
  }

  function Close(st: Server, c: ConnId): Server {
    st.(closed := st.closed + {c})
  }

  /** `b` extends `a`'s registry-free history: fewer clients, more closed, a longer log. */
  ghost predicate Evolves(a: Server, b: Server) {
    && |b.clients| <= |a.clients|
    && (forall i :: 0 <= i < |b.clients| ==> b.clients[i] in a.clients)
    && a.closed <= b.closed
    && IsPrefix(a.log, b.log)
  }

  // ---------------------------------------------------------------------
  // broadcast and remove_client

  /**
    The writes of one broadcast to the snapshot `targets`: each target in turn
    gets `message` plus a newline; a target whose write fails is removed, which
    may itself broadcast a leave notice before the pass goes on.
   */
  function BroadcastTo(st: Server, targets: seq<ConnId>, message: string, ok: WriteOracle): (r: Server)
    ensures Evolves(st, r)
    decreases |st.clients|, 1, |targets|
  {
    if targets == [] then st
    else
      var c := targets[0];
      var st1 := Attempt(st, c, message + "\n", ok);
      var st2 := if Delivered(st, c, ok) then st1 else Removal(st1, c, ok);
      BroadcastTo(st2, targets[1..], message, ok)
  }

  /** `broadcast(message)`: the snapshot is every registered connection, sender included. */
  function BroadcastAll(st: Server, message: string, ok: WriteOracle): (r: Server)
    ensures Evolves(st, r)
    decreases |st.clients|, 2
  {
    BroadcastTo(st, Conns(st.clients), message, ok)
  }

  /**
    `remove_client(conn)`: pops the entry if there is one, closes the
    connection, and announces the leave only if a non-empty name was popped.
   */
  function Removal(st: Server, c: ConnId, ok: WriteOracle): (r: Server)
    ensures Evolves(st, r)
    ensures !Registered(r.clients, c) && c in r.closed
    decreases |st.clients|, 0
  {
    match NameOf(st.clients, c)
    case None => Close(st, c)
    case Some(name) =>
      var k :| 0 <= k < |st.clients| && st.clients[k].conn == c;
      FilterDrops(st.clients, NotOf(c), k);
      var st1 := Close(st.(clients := Without(st.clients, c)), c);
      if name != "" then BroadcastAll(st1, LeaveNotice(name), ok) else st1
  }

  /**
    Where, in the log after `BroadcastTo(st, targets, message, ok)`, the pass
    itself wrote to each target (the other new entries come from removals).
   */
  ghost function Positions(st: Server, targets: seq<ConnId>, message: string, ok: WriteOracle): seq<nat>
    decreases |st.clients|, |targets|
  {
    if targets == [] then []
    else
      var c := targets[0];
      var st1 := Attempt(st, c, message + "\n", ok);
      var st2 := if Delivered(st, c, ok) then st1 else Removal(st1, c, ok);
      [|st.log|] + Positions(st2, targets[1..], message, ok)
  }

  /** Removal writes nothing but leave notices. */
  lemma {:induction false} RemoveWritesLeaveLines(st: Server, c: ConnId, ok: WriteOracle)
    ensures OnlyLeavesFrom(Removal(st, c, ok).log, |st.log|)
    decreases |st.clients|, 0
  {
    match NameOf(st.clients, c)
    case None =>
    case Some(name) =>
      var k :| 0 <= k < |st.clients| && st.clients[k].conn == c;
      FilterDrops(st.clients, NotOf(c), k);
      var st1 := Close(st.(clients := Without(st.clients, c)), c);
      if name != "" {
        assert Removal(st, c, ok) == BroadcastTo(st1, Conns(st1.clients), LeaveNotice(name), ok);
        BroadcastLeaveLines(st1, Conns(st1.clients), name, ok);
      }
  }

  /** A leave-notice broadcast, with the removals it causes, writes nothing but leave notices. */
  lemma {:induction false} BroadcastLeaveLines(st: Server, targets: seq<ConnId>, name: string, ok: WriteOracle)
    ensures OnlyLeavesFrom(BroadcastTo(st, targets, LeaveNotice(name), ok).log, |st.log|)
    decreases |st.clients|, 1, |targets|
  {
    if targets != [] {
      var c := targets[0];
      var st1 := Attempt(st, c, LeaveNotice(name) + "\n", ok);
      var st2 := if Delivered(st, c, ok) then st1 else Removal(st1, c, ok);
      if !Delivered(st, c, ok) {
        RemoveWritesLeaveLines(st1, c, ok);
      }
      BroadcastLeaveLines(st2, targets[1..], name, ok);
      var r := BroadcastTo(st2, targets[1..], LeaveNotice(name), ok);
      assert r == BroadcastTo(st, targets, LeaveNotice(name), ok);
      assert Evolves(st2, r) && Evolves(st1, st2);
      assert |st1.log| == |st.log| + 1;
      LeaveNoticeIsLeaveLine(name);
      forall j | |st.log| <= j < |r.log| ensures IsLeaveLine(r.log[j].text) {
        if j < |st1.log| {
          assert r.log[j] == st2.log[j] == st1.log[j];
          assert r.log[j].text == LeaveNotice(name) + "\n";
        } else if j < |st2.log| {
          assert r.log[j] == st2.log[j];
          assert st2 == Removal(st1, c, ok);
        }
      }
    }
  }

  /** A connection that is not registered does not come back as the state evolves. */
  lemma StaysUnregistered(a: Server, b: Server, c: ConnId)
    requires Evolves(a, b) && !Registered(a.clients, c)
    ensures !Registered(b.clients, c)
  {
    forall i | 0 <= i < |b.clients| ensures b.clients[i].conn != c {
      assert b.clients[i] in a.clients;
    }
  }

  /** The first write of a pass is the pass's own, and it stays in the log. */
  lemma BroadcastFirstWrite(st: Server, targets: seq<ConnId>, message: string, ok: WriteOracle)
    requires targets != []
    ensures var r := BroadcastTo(st, targets, message, ok);
      |st.log| < |r.log| &&
      r.log[|st.log|] == Delivery(targets[0], message + "\n", Delivered(st, targets[0], ok))
  {
    var c := targets[0];
    var st1 := Attempt(st, c, message + "\n", ok);
    var st2 := if Delivered(st, c, ok) then st1 else Removal(st1, c, ok);
    var r := BroadcastTo(st2, targets[1..], message, ok);
    assert r.log[..|st2.log|] == st2.log;
    assert st2.log[..|st1.log|] == st1.log;
    assert r.log[|st.log|] == st2.log[|st.log|] == st1.log[|st.log|];
  }

  /** Unrolls one step of a pass and of its positions. */
  lemma BroadcastStep(st: Server, targets: seq<ConnId>, message: string, ok: WriteOracle)
    requires targets != []
    ensures var c := targets[0];
      var st1 := Attempt(st, c, message + "\n", ok);
      var st2 := if Delivered(st, c, ok) then st1 else Removal(st1, c, ok);
      && |st.log| < |st2.log|
      && BroadcastTo(st, targets, message, ok) == BroadcastTo(st2, targets[1..], message, ok)
      && Positions(st, targets, message, ok) == [|st.log|] + Positions(st2, targets[1..], message, ok)
  {
  }

  /**
    A broadcast pass writes `message` to every connection of the snapshot
    `targets` exactly once, in snapshot order.
   */
  lemma {:induction false} BroadcastToSnapshot(st: Server, targets: seq<ConnId>, message: string, ok: WriteOracle)
    ensures var r := BroadcastTo(st, targets, message, ok);
      var ps := Positions(st, targets, message, ok);
      && |ps| == |targets|
      && (forall k :: 0 <= k < |ps| ==>
            |st.log| <= ps[k] < |r.log| && r.log[ps[k]].conn == targets[k] && r.log[ps[k]].text == message + "\n")
      && (forall k, l :: 0 <= k < l < |ps| ==> ps[k] < ps[l])
    decreases |st.clients|, |targets|
  {
    if targets != [] {
      var c := targets[0];
      var st1 := Attempt(st, c, message + "\n", ok);
      var st2 := if Delivered(st, c, ok) then st1 else Removal(st1, c, ok);
      BroadcastStep(st, targets, message, ok);
      BroadcastToSnapshot(st2, targets[1..], message, ok);
      BroadcastFirstWrite(st, targets, message, ok);
      var r := BroadcastTo(st2, targets[1..], message, ok);
      var ps' := Positions(st2, targets[1..], message, ok);
      var ps := [|st.log|] + ps';
      forall k | 0 <= k < |ps|
        ensures |st.log| <= ps[k] < |r.log| && r.log[ps[k]].conn == targets[k] && r.log[ps[k]].text == message + "\n"
      {
        if k > 0 {
          assert ps[k] == ps'[k - 1] && targets[k] == targets[1..][k - 1];
        }
      }
      forall k, l | 0 <= k < l < |ps| ensures ps[k] < ps[l] {
        assert ps[l] == ps'[l - 1];
        if k > 0 {
          assert ps[k] == ps'[k - 1];
        }
      }
    }
  }

  /** Every target of a pass whose write at its position failed is unregistered in `r`. */
  ghost predicate FailedUnregistered(r: Server, ps: seq<nat>, targets: seq<ConnId>) {
    forall k :: 0 <= k < |ps| && k < |targets| && ps[k] < |r.log| && !r.log[ps[k]].delivered ==>
      !Registered(r.clients, targets[k])
  }

  lemma FailedUnregisteredCons(r: Server, p: nat, ps: seq<nat>, c: ConnId, targets: seq<ConnId>)
    requires FailedUnregistered(r, ps, targets)
    requires p < |r.log| && !r.log[p].delivered ==> !Registered(r.clients, c)
    ensures FailedUnregistered(r, [p] + ps, [c] + targets)
  {
    forall k | 0 < k < |ps| + 1 && k < |targets| + 1 && ([p] + ps)[k] < |r.log| && !r.log[([p] + ps)[k]].delivered
      ensures !Registered(r.clients, ([c] + targets)[k])
    {
      assert ([p] + ps)[k] == ps[k - 1] && ([c] + targets)[k] == targets[k - 1];
    }
  }

  /** A target whose write failed is no longer registered when the pass ends. */
  lemma {:induction false} BroadcastDropsFailed(st: Server, targets: seq<ConnId>, message: string, ok: WriteOracle)
    ensures FailedUnregistered(BroadcastTo(st, targets, message, ok), Positions(st, targets, message, ok), targets)
    decreases |st.clients|, |targets|
  {
    if targets != [] {
      var c := targets[0];
      var st1 := Attempt(st, c, message + "\n", ok);
      var st2 := if Delivered(st, c, ok) then st1 else Removal(st1, c, ok);
      BroadcastStep(st, targets, message, ok);
      BroadcastDropsFailed(st2, targets[1..], message, ok);
      BroadcastFirstWrite(st, targets, message, ok);
      if !Delivered(st, c, ok) {
        FirstFailedDropped(st, targets, message, ok);
      }
      assert [c] + targets[1..] == targets;
      FailedUnregisteredCons(BroadcastTo(st, targets, message, ok), |st.log|,
        Positions(st2, targets[1..], message, ok), c, targets[1..]);
    }
  }

  /** A pass whose first write fails ends with that target unregistered. */
  lemma FirstFailedDropped(st: Server, targets: seq<ConnId>, message: string, ok: WriteOracle)
    requires targets != [] && !Delivered(st, targets[0], ok)
    ensures !Registered(BroadcastTo(st, targets, message, ok).clients, targets[0])
  {
    var c := targets[0];
    var st2 := Removal(Attempt(st, c, message + "\n", ok), c, ok);
    BroadcastStep(st, targets, message, ok);
    StaysUnregistered(st2, BroadcastTo(st2, targets[1..], message, ok), c);
  }

  /** Every other write a pass causes is a leave notice from a removal. */
  lemma {:induction false} BroadcastOtherWritesAreLeaves(st: Server, targets: seq<ConnId>, message: string, ok: WriteOracle)
    ensures var r := BroadcastTo(st, targets, message, ok);
      var ps := Positions(st, targets, message, ok);
      forall j :: |st.log| <= j < |r.log| && j !in ps ==> IsLeaveLine(r.log[j].text)
    decreases |st.clients|, |targets|
  {
    if targets != [] {
      var c := targets[0];
      var st1 := Attempt(st, c, message + "\n", ok);
      var st2 := if Delivered(st, c, ok) then st1 else Removal(st1, c, ok);
      if !Delivered(st, c, ok) {
        RemoveWritesLeaveLines(st1, c, ok);
      }
      BroadcastStep(st, targets, message, ok);
      BroadcastOtherWritesAreLeaves(st2, targets[1..], message, ok);
      var r := BroadcastTo(st2, targets[1..], message, ok);
      var ps' := Positions(st2, targets[1..], message, ok);
      var ps := [|st.log|] + ps';
      forall j | |st.log| <= j < |r.log| && j !in ps ensures IsLeaveLine(r.log[j].text) {
        if j < |st2.log| {
          assert j >= |st1.log|;
          assert r.log[..|st2.log|] == st2.log;
          assert r.log[j] == st2.log[j];
        } else {
          assert j !in ps';
        }
      }
    }
  }

  /** Removing a connection that is not registered only closes it. */
  lemma RemoveUnregistered(st: Server, c: ConnId, ok: WriteOracle)
    requires !Registered(st.clients, c)
    ensures Removal(st, c, ok) == st.(closed := st.closed + {c})
  {
  }

  /** `remove_client` is idempotent: a second call changes nothing and sends nothing. */
  lemma RemoveTwice(st: Server, c: ConnId, ok: WriteOracle)
    ensures var r := Removal(st, c, ok); Removal(r, c, ok) == r
  {
    var r := Removal(st, c, ok);
    RemoveUnregistered(r, c, ok);
    assert r.closed + {c} == r.closed;
  }

  /**
    A leave notice goes out only when a non-empty name was popped; otherwise
    removal writes nothing and leaves the rest of the registry as it was.
   */
  lemma RemoveAnnouncesOnlyNamed(st: Server, c: ConnId, ok: WriteOracle)
    ensures var r := Removal(st, c, ok);
      (NameOf(st.clients, c) == None || NameOf(st.clients, c) == Some("")) ==>
        r.log == st.log && r.clients == Without(st.clients, c)
  {
    if !Registered(st.clients, c) {
      FilterAll(st.clients, NotOf(c));
    }
  }

  // ---------------------------------------------------------------------
  // handle_whisper and the session loop

  /**
    A write on the session's own connection: a failure raises out of the
    handler, which ends the session (`alive` is false).
   */
  function SendOrEnd(st: Server, c: ConnId, text: string, ok: WriteOracle): (r: Step)
    ensures r.state.clients == st.clients && r.state.closed == st.closed
    ensures r.state.log == st.log + [Delivery(c, text, r.alive)]
    ensures r.alive <==> c !in st.closed && ok(c, |st.log|)
  {
    Step(Attempt(st, c, text, ok), Delivered(st, c, ok))
  }

  /**
    `handle_whisper(sender, raw, senderConn)`: `raw.split(' ', 2)` must give
    three parts; the target is the first client registered under the second
    part; the target gets the whisper and the sender a confirmation, and a
    failure of either write is reported to the sender instead.  A failed
    target is not removed.
   */
  function WhisperStep(st: Server, sender: string, raw: string, senderConn: ConnId, ok: WriteOracle): (r: Step)
    ensures r.state.clients == st.clients && r.state.closed == st.closed
    ensures |st.log| < |r.state.log| && r.state.log[..|st.log|] == st.log
  {
    var parts := SplitN(raw, ' ', 2);
    if |parts| < 3 then SendOrEnd(st, senderConn, WhisperUsage, ok)
    else
      var target, message := parts[1], parts[2];
      match FindConn(st.clients, target)
      case None => SendOrEnd(st, senderConn, NotFound(target), ok)
      case Some(t) => WhisperTo(st, sender, target, message, t, senderConn, ok)
  }

  /** A whisper to the client `t` found under `target`, with the confirmation or failure notice to the sender. */
  function WhisperTo(st: Server, sender: string, target: string, message: string, t: ConnId,
                     senderConn: ConnId, ok: WriteOracle): (r: Step)
    ensures r.state.clients == st.clients && r.state.closed == st.closed
    ensures |st.log| < |r.state.log| && r.state.log[..|st.log|] == st.log
  {
    var st1 := Attempt(st, t, WhisperToTarget(sender, message), ok);
    if !Delivered(st, t, ok) then SendOrEnd(st1, senderConn, WhisperFailed, ok)
    else
      var st2 := Attempt(st1, senderConn, WhisperToSender(sender, target, message), ok);
      if Delivered(st1, senderConn, ok) then Step(st2, true)
      else SendOrEnd(st2, senderConn, WhisperFailed, ok)
  }

  /**
    The next `recv` on `conn`: the next chunk, or an orderly close once the
    peer has sent everything.  Empty data is an orderly close, and a read on a
    connection the server closed fails like a reset.
   */
  function Read(st: Server, conn: ConnId, inputs: seq<Chunk>): (r: Chunk)
    ensures r.Data? ==> inputs != [] && inputs[0] == r && r.text != ""
    ensures conn in st.closed ==> r == Reset
  {
    if conn in st.closed then Reset
    else if inputs == [] || inputs[0] == Data("") then Eof
    else inputs[0]
  }

  /** How a stripped input line is handled. */
  function Classify(text: string): (k: LineKind)
    ensures k == QuitLine <==> text == QuitKeyword
    ensures k == WhisperLine <==> text != QuitKeyword && StartsWith(text, WhisperPrefix)
  {
    if text == QuitKeyword then QuitLine
    else if StartsWith(text, WhisperPrefix) then WhisperLine
    else PlainLine
  }

  /**
    The `while True` loop of `handle_client` for the session of `conn`
    registered as `name`; it ends on an orderly close, a reset, undecodable
    bytes, the quit keyword or a failed write on `conn`.
   */
  function SessionLoop(st: Server, conn: ConnId, name: string, inputs: seq<Chunk>, ok: WriteOracle): (r: Server)
    ensures IsPrefix(st.log, r.log)
    decreases |inputs|
  {
    match Read(st, conn, inputs)
    case Eof => st
    case Reset | Undecodable => st
    case Data(d) =>
      var text := Strip(d);
      match Classify(text)
      case QuitLine => SendOrEnd(st, conn, ClosingNotice, ok).state
      case WhisperLine =>
        var s := WhisperStep(st, name, text, conn, ok);
        if s.alive then
          var r := SessionLoop(s.state, conn, name, inputs[1..], ok);
          PrefixTrans(st.log, s.state.log, r.log);
          r
        else s.state
      case PlainLine =>
        var st1 := BroadcastAll(st, ChatLine(name, text), ok);
        var r := SessionLoop(st1, conn, name, inputs[1..], ok);
        PrefixTrans(st.log, st1.log, r.log);
        r
  }

  /**
    `handle_client(conn)`: prompt, read the name, register it, announce the
    join to everybody, send the usage hint, run the loop; whatever happens,
    `remove_client(conn)` runs last.
   */
  function SessionRun(st: Server, conn: ConnId, inputs: seq<Chunk>, ok: WriteOracle): (r: Server)
    ensures !Registered(r.clients, conn) && conn in r.closed
    ensures IsPrefix(st.log + [Delivery(conn, NamePrompt, Delivered(st, conn, ok))], r.log)
  {
    var s1 := SendOrEnd(st, conn, NamePrompt, ok);
    if !s1.alive then Removal(s1.state, conn, ok)
    else match Read(s1.state, conn, inputs)
      case Eof => Removal(Close(s1.state, conn), conn, ok)
      case Reset | Undecodable => Removal(s1.state, conn, ok)
      case Data(d) =>
        var name := Strip(d);
        Joined(s1.state.(clients := Register(s1.state.clients, conn, name)), conn, name, inputs[1..], ok)
  }

  /**
    The rest of a session once `name` is registered: announce the join to
    everybody, send the usage hint, serve the remaining input, and finally
    `remove_client(conn)`.
   */
  function Joined(st: Server, conn: ConnId, name: string, rest: seq<Chunk>, ok: WriteOracle): (r: Server)
    ensures !Registered(r.clients, conn) && conn in r.closed
    ensures IsPrefix(BroadcastAll(st, JoinNotice(name), ok).log, r.log)
    ensures IsPrefix(st.log, r.log)
  {
    var st3 := BroadcastAll(st, JoinNotice(name), ok);
    var s4 := SendOrEnd(st3, conn, UsageHint, ok);
    var st5 := if s4.alive then SessionLoop(s4.state, conn, name, rest, ok) else s4.state;
    var r := Removal(st5, conn, ok);
    PrefixTrans(st3.log, s4.state.log, st5.log);
    PrefixTrans(st3.log, st5.log, r.log);
    PrefixTrans(st.log, st3.log, r.log);
    r
  }

  /** `shutdown()`: the registry is emptied and every registered connection closed; nothing is sent. */
  function ShutdownState(st: Server): (r: Server)
    ensures r.clients == [] && r.log == st.log
    ensures r.closed == st.closed + set i | 0 <= i < |st.clients| :: st.clients[i].conn
  {
    Server([], st.closed + (set c | c in Conns(st.clients)), st.log)
  }

  // ---------------------------------------------------------------------
  // Properties of the registry and of a session

  /** Registering sets `conn`'s name, leaves every other entry alone and adds at most one key. */
  lemma RegisterSpec(clients: seq<ClientRecord>, conn: ConnId, name: string, c: ConnId)
    ensures NameOf(Register(clients, conn, name), conn) == Some(name)
    ensures c != conn ==> NameOf(Register(clients, conn, name), c) == NameOf(clients, c)
    ensures |Register(clients, conn, name)| == |clients| + (if Registered(clients, conn) then 0 else 1)
  {
    var r := Register(clients, conn, name);
    if Registered(clients, conn) {
      RegisterInPlace(clients, conn, name, c);
    } else {
      RegisterAppend(clients, conn, name, c);
    }
  }

  lemma {:induction false} RegisterInPlace(clients: seq<ClientRecord>, conn: ConnId, name: string, c: ConnId)
    ensures Registered(clients, conn) ==> NameOf(Rename(clients, conn, name), conn) == Some(name)
    ensures c != conn ==> NameOf(Rename(clients, conn, name), c) == NameOf(clients, c)
  {
    if Registered(clients, conn) {
      RenameSetsName(clients, conn, name);
    }
    if c != conn {
      RenameKeepsOthers(clients, conn, name, c);
    }
  }

  lemma {:induction false} RenameSetsName(clients: seq<ClientRecord>, conn: ConnId, name: string)
    requires Registered(clients, conn)
    ensures NameOf(Rename(clients, conn, name), conn) == Some(name)
  {
    if clients[0].conn != conn {
      var i :| 0 <= i < |clients| && clients[i].conn == conn;
      assert clients[1..][i - 1].conn == conn;
      RenameSetsName(clients[1..], conn, name);
      assert Rename(clients, conn, name)[1..] == Rename(clients[1..], conn, name);
    }
  }

  lemma {:induction false} RenameKeepsOthers(clients: seq<ClientRecord>, conn: ConnId, name: string, c: ConnId)
    requires c != conn
    ensures NameOf(Rename(clients, conn, name), c) == NameOf(clients, c)
  {
    if clients != [] {
      RenameKeepsOthers(clients[1..], conn, name, c);
      assert Rename(clients, conn, name)[1..] == Rename(clients[1..], conn, name);
    }
  }

  lemma {:induction false} RegisterAppend(clients: seq<ClientRecord>, conn: ConnId, name: string, c: ConnId)
    requires !Registered(clients, conn)
    ensures var r := clients + [ClientRecord(conn, name)];
      NameOf(r, conn) == Some(name) && (c != conn ==> NameOf(r, c) == NameOf(clients, c))
  {
    if clients != [] {
      RegisterAppend(clients[1..], conn, name, c);
      assert (clients + [ClientRecord(conn, name)])[1..] == clients[1..] + [ClientRecord(conn, name)];
    }
  }

  /** Registering and popping keep the registry's keys unique. */
  lemma RegistryKeysStayUnique(clients: seq<ClientRecord>, conn: ConnId, name: string, c: ConnId)
    requires UniqueConns(clients)
    ensures UniqueConns(Register(clients, conn, name))
    ensures UniqueConns(Without(clients, c))
  {
    WithoutUnique(clients, c);
  }

  lemma {:induction false} WithoutUnique(clients: seq<ClientRecord>, c: ConnId)
    requires UniqueConns(clients)
    ensures UniqueConns(Without(clients, c))
    decreases |clients|
  {
    if clients != [] {
      var init := clients[..|clients| - 1];
      var last := clients[|clients| - 1];
      WithoutUnique(init, c);
      assert Without(clients, c) == Without(init, c) + (if NotOf(c)(last) then [last] else []);
      forall i | 0 <= i < |Without(init, c)| ensures Without(init, c)[i].conn != last.conn {
        var w := Without(init, c)[i];
        assert w in init;
        var k :| 0 <= k < |init| && init[k] == w;
        assert clients[k] == w;
      }
    }
  }

  /** A whisper line splits into the command, a target without spaces, and the verbatim rest. */
  lemma WhisperParts(raw: string)
    ensures var parts := SplitN(raw, ' ', 2);
      |parts| == 3 ==> ' ' !in parts[1] && raw == parts[0] + " " + parts[1] + " " + parts[2]
  {
    var parts := SplitN(raw, ' ', 2);
    JoinSplitN(raw, ' ', 2);
    if |parts| == 3 {
      assert Join(parts, " ") == parts[0] + " " + Join(parts[1..], " ");
      assert Join(parts[1..], " ") == parts[1] + " " + Join(parts[2..], " ");
    }
  }

  /** The first occurrence of `c` in `a + [c] + b` when `a` has none. */
  lemma {:induction false} IndexOfAfter(a: string, c: char, b: string)
    requires c !in a
    ensures IndexOf(a + [c] + b, c) == Some(|a|)
  {
    if a != [] {
      IndexOfAfter(a[1..], c, b);
      assert (a + [c] + b)[1..] == a[1..] + [c] + b;
    }
  }

  /** `"/w " + target + " " + message` splits back into its target and message. */
  lemma SplitWhisper(target: string, message: string)
    requires ' ' !in target
    ensures SplitN(WhisperPrefix + target + " " + message, ' ', 2) == ["/w", target, message]
  {
    var raw := WhisperPrefix + target + " " + message;
    var rest := target + " " + message;
    assert raw == "/w" + [' '] + rest;
    IndexOfAfter("/w", ' ', rest);
    assert raw[..2] == "/w" && raw[3..] == rest;
    assert SplitN(raw, ' ', 2) == ["/w"] + SplitN(rest, ' ', 1);
    assert rest == target + [' '] + message;
    IndexOfAfter(target, ' ', message);
    assert rest[..|target|] == target && rest[|target| + 1..] == message;
    assert SplitN(rest, ' ', 1) == [target] + SplitN(message, ' ', 0);
  }

  /**
    A whisper `/w target message` to a registered `target` first writes the
    message to the first client registered under that name, then, if that
    went through, the confirmation to the sender; a failure of either write
    is reported to the sender.
   */
  lemma WhisperRoutes(st: Server, sender: string, target: string, message: string, senderConn: ConnId,
                      ok: WriteOracle, t: ConnId)
    requires ' ' !in target && FindConn(st.clients, target) == Some(t)
    ensures var r := WhisperStep(st, sender, WhisperPrefix + target + " " + message, senderConn, ok);
      var toTarget := Delivery(t, WhisperToTarget(sender, message), Delivered(st, t, ok));
      var st1 := Attempt(st, t, WhisperToTarget(sender, message), ok);
      var toSender := Delivery(senderConn, WhisperToSender(sender, target, message), Delivered(st1, senderConn, ok));
      var failed := Delivery(senderConn, WhisperFailed, r.alive);
      if !Delivered(st, t, ok) then r.state.log == st.log + [toTarget, failed]
      else if toSender.delivered then r.alive && r.state.log == st.log + [toTarget, toSender]
      else r.state.log == st.log + [toTarget, toSender, failed]
  {
    SplitWhisper(target, message);
    assert WhisperStep(st, sender, WhisperPrefix + target + " " + message, senderConn, ok)
        == WhisperTo(st, sender, target, message, t, senderConn, ok);
    WhisperToLog(st, sender, target, message, t, senderConn, ok);
  }

  lemma WhisperToLog(st: Server, sender: string, target: string, message: string, t: ConnId,
                     senderConn: ConnId, ok: WriteOracle)
    ensures var r := WhisperTo(st, sender, target, message, t, senderConn, ok);
      var toTarget := Delivery(t, WhisperToTarget(sender, message), Delivered(st, t, ok));
      var st1 := Attempt(st, t, WhisperToTarget(sender, message), ok);
      var toSender := Delivery(senderConn, WhisperToSender(sender, target, message), Delivered(st1, senderConn, ok));
      var failed := Delivery(senderConn, WhisperFailed, r.alive);
      if !Delivered(st, t, ok) then r.state.log == st.log + [toTarget, failed]
      else if toSender.delivered then r.alive && r.state.log == st.log + [toTarget, toSender]
      else r.state.log == st.log + [toTarget, toSender, failed]
  {
  }

  /**
    A whisper writes to nobody but the sender and the client it found, and a
    line that does not split into three parts, or names nobody registered,
    gets one reply to the sender.
   */
  lemma WhisperWritesOnlyPair(st: Server, sender: string, raw: string, senderConn: ConnId, ok: WriteOracle)
    ensures var r := WhisperStep(st, sender, raw, senderConn, ok);
      var parts := SplitN(raw, ' ', 2);
      && (forall j :: |st.log| <= j < |r.state.log| ==>
            r.state.log[j].conn == senderConn ||
            (|parts| == 3 && FindConn(st.clients, parts[1]) == Some(r.state.log[j].conn)))
      && (|parts| < 3 ==> r.state.log == st.log + [Delivery(senderConn, WhisperUsage, r.alive)])
      && (|parts| == 3 && FindConn(st.clients, parts[1]).None? ==>
            r.state.log == st.log + [Delivery(senderConn, NotFound(parts[1]), r.alive)])
  {
  }

  /**
    A session whose first read brings no name (an orderly close, empty data,
    or a reset) registers nothing and sends nothing but the prompt.
   */
  lemma SessionWithoutName(st: Server, conn: ConnId, inputs: seq<Chunk>, ok: WriteOracle)
    requires !Registered(st.clients, conn)
    requires inputs == [] || !inputs[0].Data? || inputs[0] == Data("")
    ensures var r := SessionRun(st, conn, inputs, ok);
      r == st.(closed := st.closed + {conn}, log := st.log + [Delivery(conn, NamePrompt, Delivered(st, conn, ok))])
  {
    var s1 := SendOrEnd(st, conn, NamePrompt, ok);
    assert s1.state.closed + {conn} + {conn} == s1.state.closed + {conn};
  }

  /** The write a pass makes to its `k`-th target. */
  lemma SnapshotWrite(st: Server, targets: seq<ConnId>, message: string, ok: WriteOracle, k: nat)
    returns (j: nat)
    requires k < |targets|
    ensures var r := BroadcastTo(st, targets, message, ok);
      |st.log| <= j < |r.log| && r.log[j].conn == targets[k] && r.log[j].text == message + "\n"
  {
    BroadcastToSnapshot(st, targets, message, ok);
    j := Positions(st, targets, message, ok)[k];
  }

  /** A broadcast offers `message` to every connection registered when it starts. */
  lemma BroadcastReachesAll(st: Server, message: string, ok: WriteOracle, i: nat)
    requires i < |st.clients|
    ensures var r := BroadcastAll(st, message, ok);
      exists j :: |st.log| <= j < |r.log| && r.log[j].conn == st.clients[i].conn && r.log[j].text == message + "\n"
  {
    var j := SnapshotWrite(st, Conns(st.clients), message, ok, i);
    assert BroadcastAll(st, message, ok) == BroadcastTo(st, Conns(st.clients), message, ok);
  }

  /**
    The session that reads the name `d` (stripped) broadcasts the join notice
    to the registry with the new entry, and everything after that only
    appends to the log.
   */
  lemma SessionJoinStep(st: Server, conn: ConnId, d: string, rest: seq<Chunk>, ok: WriteOracle)
    returns (st2: Server)
    requires Delivered(st, conn, ok) && d != ""
    ensures st2.clients == Register(st.clients, conn, Strip(d))
    ensures |st.log| < |st2.log|
    ensures IsPrefix(BroadcastAll(st2, JoinNotice(Strip(d)), ok).log, SessionRun(st, conn, [Data(d)] + rest, ok).log)
  {
    var inputs := [Data(d)] + rest;
    var name := Strip(d);
    var s1 := SendOrEnd(st, conn, NamePrompt, ok);
    assert Read(s1.state, conn, inputs) == Data(d);
    st2 := s1.state.(clients := Register(s1.state.clients, conn, name));
    assert inputs[1..] == rest;
    assert SessionRun(st, conn, inputs, ok) == Joined(st2, conn, name, rest, ok);
  }

  /**
    Once a session has its name, the join notice is offered to every client
    registered before it and to the new client itself.
   */
  lemma SessionAnnouncesJoin(st: Server, conn: ConnId, d: string, rest: seq<Chunk>, ok: WriteOracle, c: ConnId)
    requires Delivered(st, conn, ok) && d != ""
    requires c == conn || Registered(st.clients, c)
    ensures var r := SessionRun(st, conn, [Data(d)] + rest, ok);
      exists j :: |st.log| < j < |r.log| && r.log[j].conn == c && r.log[j].text == JoinNotice(Strip(d)) + "\n"
  {
    var name := Strip(d);
    var st2 := SessionJoinStep(st, conn, d, rest, ok);
    var st3 := BroadcastAll(st2, JoinNotice(name), ok);
    var r := SessionRun(st, conn, [Data(d)] + rest, ok);
    RegisterSpec(st.clients, conn, name, c);
    assert NameOf(st2.clients, c).Some?;
    var i :| 0 <= i < |st2.clients| && st2.clients[i].conn == c;
    BroadcastReachesAll(st2, JoinNotice(name), ok, i);
    var j :| |st2.log| <= j < |st3.log| && st3.log[j].conn == c && st3.log[j].text == JoinNotice(name) + "\n";
    assert r.log[..|st3.log|] == st3.log;
    assert r.log[j] == st3.log[j];
  }

  /** The quit keyword ends the loop after the closing notice, whatever the peer sends next. */
  lemma QuitEndsLoop(st: Server, conn: ConnId, name: string, d: string, rest: seq<Chunk>, ok: WriteOracle)
    requires conn !in st.closed && Strip(d) == QuitKeyword
    ensures SessionLoop(st, conn, name, [Data(d)] + rest, ok)
         == st.(log := st.log + [Delivery(conn, ClosingNotice, ok(conn, |st.log|))])
  {
    assert d != "";
  }

  /** Bytes that do not decode end the session exactly as a reset does, whatever follows. */
  lemma UndecodableIsReset(st: Server, conn: ConnId, name: string, rest: seq<Chunk>, ok: WriteOracle)
    ensures SessionLoop(st, conn, name, [Undecodable] + rest, ok) == st
    ensures SessionRun(st, conn, [Undecodable] + rest, ok) == SessionRun(st, conn, [Reset] + rest, ok)
  {
  }

  // ---------------------------------------------------------------------
  // The server object

  /**
    The `ChatServer` object: the registry dict, the set of connections it has
    closed and the log of every write it attempted, updated in place by the
    handlers.  Each method leaves exactly the state its function above
    describes.
   */
  class ChatServer {
    var clients: seq<ClientRecord>
    var closed: set<ConnId>
    var log: seq<Delivery>
    const writeOk: WriteOracle

    /** A server with no clients that has written nothing yet. */
    constructor (writeOk: WriteOracle)
      ensures State() == Server([], {}, []) && this.writeOk == writeOk
    {
      clients := [];
      closed := {};
      log := [];
      this.writeOk := writeOk;
    }

    function State(): Server
      reads this
    {
      Server(clients, closed, log)
    }

    /** `conn.sendall(text)`: reports whether the write went through. */
    method Send(c: ConnId, text: string) returns (delivered: bool)
      modifies this
      ensures State() == Attempt(old(State()), c, text, writeOk)
      ensures delivered == Delivered(old(State()), c, writeOk)
    {
      delivered := c !in closed && writeOk(c, |log|);
      log := log + [Delivery(c, text, delivered)];
    }

    /** `find_conn_by_username`: scans the registry in insertion order. */
    method FindConnByUsername(username: string) returns (r: Option<ConnId>)
      ensures r == FindConn(clients, username)
    {
      var i := 0;
      while i < |clients|
        invariant 0 <= i <= |clients|
        invariant FindConn(clients[i..], username) == FindConn(clients, username)
      {
        assert clients[i..][1..] == clients[i + 1..];
        if clients[i].name == username {
          return Some(clients[i].conn);
        }
        i := i + 1;
      }
      return None;
    }

    /** `remove_client(conn)`. */
    method RemoveClient(c: ConnId)
      modifies this
      ensures State() == Removal(old(State()), c, writeOk)
      decreases |clients|, 0
    {
      var username := NameOf(clients, c);
      if username.Some? {
        ghost var k :| 0 <= k < |clients| && clients[k].conn == c;
        FilterDrops(clients, NotOf(c), k);
        clients := Without(clients, c);
      }
      closed := closed + {c};
      if username.Some? && username.value != "" {
        Broadcast(LeaveNotice(username.value));
      }
    }

    /** `broadcast(message)`: writes to a snapshot of the registry, removing each client whose write fails. */
    method Broadcast(message: string)
      modifies this
      ensures State() == BroadcastAll(old(State()), message, writeOk)
      decreases |clients|, 1
    {
      var targets := Conns(clients);
      var i := 0;
      while i < |targets|
        invariant 0 <= i <= |targets|
        invariant |clients| <= |old(clients)|
        invariant BroadcastTo(State(), targets[i..], message, writeOk)
               == BroadcastTo(old(State()), targets, message, writeOk)
      {
        ghost var before := State();
        var c := targets[i];
        var delivered := Send(c, message + "\n");
        if !delivered {
          RemoveClient(c);
        }
        assert targets[i..][1..] == targets[i + 1..];
        assert BroadcastTo(before, targets[i..], message, writeOk)
            == BroadcastTo(State(), targets[i + 1..], message, writeOk);
        i := i + 1;
      }
    }

    /** `handle_whisper(sender_name, raw, sender_conn)`; false when a write to the sender failed. */
    method HandleWhisper(senderName: string, raw: string, senderConn: ConnId) returns (alive: bool)
      modifies this
      ensures Step(State(), alive) == WhisperStep(old(State()), senderName, raw, senderConn, writeOk)
    {
      var parts := SplitN(raw, ' ', 2);
      if |parts| < 3 {
        alive := Send(senderConn, WhisperUsage);
        return;
      }
      var target, message := parts[1], parts[2];
      var found := FindConnByUsername(target);
      if found.None? {
        alive := Send(senderConn, NotFound(target));
        return;
      }
      var delivered := Send(found.value, WhisperToTarget(senderName, message));
      if delivered {
        delivered := Send(senderConn, WhisperToSender(senderName, target, message));
      }
      if delivered {
        alive := true;
      } else {
        alive := Send(senderConn, WhisperFailed);
      }
    }

    /** The `while True` loop of `handle_client` for the client registered as `username`. */
    method ServeLines(conn: ConnId, username: string, inputs: seq<Chunk>)
      modifies this
      ensures State() == SessionLoop(old(State()), conn, username, inputs, writeOk)
    {
      var i := 0;
      var running := true;
      while running
        invariant 0 <= i <= |inputs|
        invariant running ==>
          SessionLoop(State(), conn, username, inputs[i..], writeOk) == SessionLoop(old(State()), conn, username, inputs, writeOk)
        invariant !running ==> State() == SessionLoop(old(State()), conn, username, inputs, writeOk)
        decreases |inputs| - i + (if running then 1 else 0)
      {
        match Read(State(), conn, inputs[i..])
        case Eof =>
          running := false;
        case Reset | Undecodable =>
          running := false;
        case Data(line) =>
          assert inputs[i..][1..] == inputs[i + 1..];
          var text := Strip(line);
          var kind := Classify(text);
          if kind == QuitLine {
            var _ := Send(conn, ClosingNotice);
            running := false;
          } else if kind == WhisperLine {
            var alive := HandleWhisper(username, text, conn);
            if alive {
              i := i + 1;
            } else {
              running := false;
            }
          } else {
            Broadcast(ChatLine(username, text));
            i := i + 1;
          }
      }
    }

    /** `handle_client(conn)`, fed the chunks the peer sends. */
    method HandleClient(conn: ConnId, inputs: seq<Chunk>)
      modifies this
      ensures State() == SessionRun(old(State()), conn, inputs, writeOk)
    {
      var alive := Send(conn, NamePrompt);
      if !alive {
        RemoveClient(conn);
        return;
      }
      match Read(State(), conn, inputs)
      case Eof =>
        closed := closed + {conn};
        RemoveClient(conn);
      case Reset | Undecodable =>
        RemoveClient(conn);
      case Data(d) =>
        var username := Strip(d);
        clients := Register(clients, conn, username);
        Broadcast(JoinNotice(username));
        alive := Send(conn, UsageHint);
        if alive {
          ServeLines(conn, username, inputs[1..]);
        }
        RemoveClient(conn);
    }

    /** `shutdown()`: empties the registry, then closes every connection it held. */
    method Shutdown()
      modifies this
      ensures State() == ShutdownState(old(State()))
    {
      var conns := Conns(clients);
      clients := [];
      var i := 0;
      while i < |conns|
        invariant 0 <= i <= |conns|
        invariant clients == [] && log == old(log)
        invariant closed == old(closed) + (set c | c in conns[..i])
      {
        assert conns[..i + 1] == conns[..i] + [conns[i]];
        closed := closed + {conns[i]};
        i := i + 1;
      }
      assert conns[..i] == conns;
    }
  }
}
