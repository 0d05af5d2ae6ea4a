/** What a turn of the reactor in showcases/http-server/server.php does to its connections, as
    functions of the system's answers. */
module ReactorTurns {
  import opened Prelude

  // ----- connections -----

  /** `strpos($inbuf, "\r\n\r\n") !== false` */
  predicate HasHeaderEnd(s: string) {
    "\r\n\r\n" <= s || (s != [] && HasHeaderEnd(s[1..]))
  }

  predicate HeaderEndAt(s: string, i: nat) {
    i + 4 <= |s| && s[i] == '\r' && s[i + 1] == '\n' && s[i + 2] == '\r' && s[i + 3] == '\n'
  }

  /** The header ends where two line ends follow each other. */
  lemma {:induction false} HeaderEndExact(s: string)
    ensures HasHeaderEnd(s) <==> exists i: nat :: HeaderEndAt(s, i)
  {
    assert "\r\n\r\n" <= s <==> HeaderEndAt(s, 0);
    if s != [] {
      HeaderEndExact(s[1..]);
      assert forall i: nat :: HeaderEndAt(s[1..], i) ==> HeaderEndAt(s, i + 1);
      assert forall i: nat :: i > 0 && HeaderEndAt(s, i) ==> HeaderEndAt(s[1..], i - 1);
    }
  }

  datatype Fiber = NoFiber | Suspended | Terminated

  /** What a connection holds at one time. */
  datatype Snapshot = Snapshot(fd: int, fiber: Fiber, inbuf: string, active: bool, started: bool, closed: bool) {
    predicate Open() { active && !closed }
  }

  /** A slot that was never used, and one just given to a new connection. */
  const UNUSED := Snapshot(0, NoFiber, "", false, false, false)

  function Fresh(fd: int): Snapshot {
    Snapshot(fd, NoFiber, "", true, false, false)
  }

  /** A connection that has received one more chunk: it is closed if that is empty or completes
      the request header, and otherwise waits for more. */
  function Received(v: Snapshot, chunk: string): Snapshot {
    var done := chunk == "" || HasHeaderEnd(v.inbuf + chunk);
    v.(inbuf := v.inbuf + chunk, started := true, closed := done, fiber := if done then Terminated else Suspended)
  }

  // ----- what a turn does -----

  /** What the system answers during one turn: how `poll` returns, what it reports about a
      descriptor for given events, what is received from a descriptor, and what `accept`
      returns. */
  datatype Turn = Turn(pollResult: int, reports: (int, int) -> int, received: int -> string, candidate: int)

  const POLLIN := 1

  predicate Ready(now: Turn, fd: int) {
    now.reports(fd, POLLIN) != 0
  }

  /** A connection about which something is reported receives a chunk; the others are left alone. */
  function Serviced(v: Snapshot, now: Turn): Snapshot {
    if v.active && Ready(now, v.fd) then Received(v, now.received(v.fd)) else v
  }

  function FirstIdle(pool: seq<Snapshot>): (i: Option<nat>)
    ensures i.None? ==> forall v :: v in pool ==> v.active
    ensures i.Some? ==> i.value < |pool| && !pool[i.value].active && forall j :: 0 <= j < i.value ==> pool[j].active
  {
    if pool == [] then None
    else if !pool[0].active then Some(0)
    else
      match FirstIdle(pool[1..])
      case None => None
      case Some(i) => Some(i + 1)
  }

  /** A new connection is accepted if the listener is ready, a slot is idle and the system has
      a descriptor to give, which is one that is not open. */
  predicate Accepts(pool: seq<Snapshot>, listener: int, now: Turn) {
    && Ready(now, listener) && FirstIdle(pool).Some? && now.candidate >= 0 && now.candidate != listener
    && forall v :: v in pool && Serviced(v, now).Open() ==> v.fd != now.candidate
  }

  /** A finished connection gives up its slot. */
  function Released(v: Snapshot): Snapshot {
    v.(active := v.active && !v.closed)
  }

  /** The slot after a turn. */
  function AfterTurn(pool: seq<Snapshot>, i: nat, listener: int, now: Turn): Snapshot
    requires i < |pool|
  {
    if Accepts(pool, listener, now) && FirstIdle(pool) == Some(i) then Fresh(now.candidate)
    else Released(Serviced(pool[i], now))
  }

  function PoolAfterTurn(pool: seq<Snapshot>, listener: int, now: Turn): (r: seq<Snapshot>)
    ensures |r| == |pool| && forall i :: 0 <= i < |pool| ==> r[i] == AfterTurn(pool, i, listener, now)
  {
    seq(|pool|, i requires 0 <= i < |pool| => AfterTurn(pool, i, listener, now))
  }

  /** The pool after the first n turns of a script. */
  function AfterTurns(pool: seq<Snapshot>, listener: int, script: seq<Turn>, n: nat): seq<Snapshot>
    requires n <= |script|
  {
    if n == 0 then pool else PoolAfterTurn(AfterTurns(pool, listener, script, n - 1), listener, script[n - 1])
  }

  /** How many turns are completed before `poll` fails. */
  function TurnsRun(script: seq<Turn>): (n: nat)
    ensures n <= |script| && forall k :: 0 <= k < n ==> script[k].pollResult >= 0
    ensures n < |script| ==> script[n].pollResult < 0
  {
    if script == [] || script[0].pollResult < 0 then 0
    else
      assert forall k :: 0 < k < |script| ==> script[k] == script[1..][k - 1];
      1 + TurnsRun(script[1..])
  }

  // ----- properties of a turn -----

  lemma FirstIdleIs(pool: seq<Snapshot>, i: nat)
    requires i < |pool| && !pool[i].active && forall j :: 0 <= j < i ==> pool[j].active
    ensures FirstIdle(pool) == Some(i)
  {
    hide FirstIdle;
    assert pool[i] in pool;
  }

  lemma ReceivedKeepsDescriptor(v: Snapshot, chunk: string)
    ensures Received(v, chunk).fd == v.fd && Received(v, chunk).active == v.active
  {
    hide HasHeaderEnd;
  }

  /** Servicing makes no slot idle or active. */
  lemma IdleStays(pool: seq<Snapshot>, serviced: seq<Snapshot>, now: Turn)
    requires |serviced| == |pool| && forall i :: 0 <= i < |pool| ==> serviced[i] == Serviced(pool[i], now)
    ensures FirstIdle(serviced) == FirstIdle(pool)
  {
    hide HasHeaderEnd, FirstIdle;
    forall i | 0 <= i < |pool|
      ensures serviced[i].active == pool[i].active && serviced[i] in serviced && pool[i] in pool
    {
    }
    if FirstIdle(pool).Some? {
      FirstIdleIs(serviced, FirstIdle(pool).value);
    }
  }

  /** Serviced, then perhaps one slot given away, then released: that is the slot after a turn. */
  lemma TurnExact(pool: seq<Snapshot>,
    serviced: seq<Snapshot>, accepted: seq<Snapshot>, i: nat, listener: int, now: Turn)
    requires i < |pool| == |serviced| && forall i :: 0 <= i < |pool| ==> serviced[i] == Serviced(pool[i], now)
    requires accepted ==
             if Accepts(pool, listener, now) then serviced[FirstIdle(pool).value := Fresh(now.candidate)] else serviced
    ensures Released(accepted[i]) == AfterTurn(pool, i, listener, now)
  {
    hide HasHeaderEnd, Received;
  }

  lemma NextTurn(pool: seq<Snapshot>, listener: int, script: seq<Turn>, n: nat)
    requires n < |script| && n <= TurnsRun(script)
    ensures AfterTurns(pool, listener, script, n + 1)
            == PoolAfterTurn(AfterTurns(pool, listener, script, n), listener, script[n])
    ensures if script[n].pollResult < 0 then n == TurnsRun(script) else n < TurnsRun(script)
  {
  }

  lemma NoTurn(pool: seq<Snapshot>, listener: int, script: seq<Turn>)
    ensures AfterTurns(pool, listener, script, 0) == pool
  {
  }

  // ----- one connection over many turns -----

  /** What is received from a descriptor in the first n turns. */
  function Inbox(fd: int, script: seq<Turn>, n: nat): string
    requires n <= |script|
  {
    if n == 0 then ""
    else Inbox(fd, script, n - 1) + if Ready(script[n - 1], fd) then script[n - 1].received(fd) else ""
  }

  /** In the k-th turn the peer hangs up or completes its request header. */
  predicate Finishes(v: Snapshot, script: seq<Turn>, k: nat)
    requires k < |script|
  {
    Ready(script[k], v.fd) && (script[k].received(v.fd) == "" || HasHeaderEnd(v.inbuf + Inbox(v.fd, script, k + 1)))
  }

  /** An open connection in one turn. */
  lemma ConnectionTurn(v: Snapshot, now: Turn)
    requires v.Open()
    ensures var w, chunk := Released(Serviced(v, now)), if Ready(now, v.fd) then now.received(v.fd) else "";
            && w.inbuf == v.inbuf + chunk && w.fd == v.fd && (w.active <==> !w.closed)
            && (w.active <==> !(Ready(now, v.fd) && (chunk == "" || HasHeaderEnd(v.inbuf + chunk))))
  {
    hide HasHeaderEnd;
  }

  /** A connection keeps its slot and collects what it receives until it finishes, and then gives
      up the slot in the same turn, whatever the other connections do. */
  lemma {:induction false} ConnectionFollows(pool: seq<Snapshot>, listener: int, script: seq<Turn>, n: nat, i: nat)
    requires n <= |script| && i < |pool| && pool[i].Open()
    requires forall k :: 0 <= k < n - 1 ==> !Finishes(pool[i], script, k)
    ensures |AfterTurns(pool, listener, script, n)| == |pool|
    ensures var v := AfterTurns(pool, listener, script, n)[i];
            && v.inbuf == pool[i].inbuf + Inbox(pool[i].fd, script, n) && v.fd == pool[i].fd
            && (v.active <==> n == 0 || !Finishes(pool[i], script, n - 1)) && (v.active <==> !v.closed)
  {
    hide HasHeaderEnd, Serviced, Released;
    if n > 0 {
      ConnectionFollows(pool, listener, script, n - 1, i);
      assert n > 1 ==> !Finishes(pool[i], script, n - 2);
      var v, before, now := pool[i], AfterTurns(pool, listener, script, n - 1), script[n - 1];
      assert before[i].Open() && FirstIdle(before) != Some(i);
      assert AfterTurns(pool, listener, script, n)[i] == Released(Serviced(before[i], now));
      ConnectionTurn(before[i], now);
      var chunk := if Ready(now, v.fd) then now.received(v.fd) else "";
      assert (v.inbuf + Inbox(v.fd, script, n - 1)) + chunk == v.inbuf + (Inbox(v.fd, script, n - 1) + chunk);
    }
  }
}
