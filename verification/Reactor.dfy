/** The poll reactor of showcases/http-server/server.php. */
module Reactor {
  import opened ReactorTurns

  // A fixed pool of connections, one fiber each. What the operating system answers is
  // given as arguments; it never hands out a descriptor that is still open.

  // ----- descriptors -----

  datatype Event = Opened(fd: int) | Closed(fd: int)

  /** The descriptors open after a history. */
  function OpenAfter(history: seq<Event>): set<int> {
    if history == [] then {} else
      var before := OpenAfter(history[..|history| - 1]);
      match history[|history| - 1]
      case Opened(fd) => before + {fd}
      case Closed(fd) => before - {fd}
  }

  /** Only closed descriptors are opened and only open ones closed. */
  predicate Orderly(history: seq<Event>) {
    history == [] ||
    (var before := history[..|history| - 1];
     Orderly(before) &&
     match history[|history| - 1]
     case Opened(fd) => fd !in OpenAfter(before)
     case Closed(fd) => fd in OpenAfter(before))
  }

  function Count(history: seq<Event>, e: Event): nat {
    multiset(history)[e]
  }

  /** In an orderly history every descriptor is closed as often as it is opened, except
      that an open one still has one closing to come. */
  lemma {:induction false} OpenedAndClosedBalance(history: seq<Event>, fd: int)
    requires Orderly(history)
    ensures Count(history, Opened(fd)) == Count(history, Closed(fd)) + if fd in OpenAfter(history) then 1 else 0
  {
    if history != [] {
      var n := |history| - 1;
      OpenedAndClosedBalance(history[..n], fd);
      assert history == history[..n] + [history[n]];
    }
  }

  /** Every descriptor has been closed as often as it was opened, an open one once less. */
  ghost predicate Balanced(history: seq<Event>, open: set<int>) {
    forall fd :: Count(history, Opened(fd)) == Count(history, Closed(fd)) + if fd in open then 1 else 0
  }

  lemma OrderlyIsBalanced(history: seq<Event>)
    requires Orderly(history)
    ensures Balanced(history, OpenAfter(history))
  {
    forall fd
      ensures Count(history, Opened(fd)) == Count(history, Closed(fd)) + if fd in OpenAfter(history) then 1 else 0
    {
      OpenedAndClosedBalance(history, fd);
    }
  }

  /** The process's descriptor table. */
  class Descriptors {
    var open: set<int>
    ghost var history: seq<Event>

    ghost predicate Valid()
      reads this
    {
      Orderly(history) && open == OpenAfter(history)
    }

    constructor ()
      ensures Valid() && open == {} && history == []
    {
      open, history := {}, [];
    }

    /** `socket_accept` or `socket` + `listen`: fails, or yields a descriptor not open. */
    method Open(candidate: int) returns (fd: int)
      requires Valid()
      modifies this
      ensures Valid() && (fd >= 0 <==> candidate >= 0 && candidate !in old(open))
      ensures if fd >= 0 then fd == candidate && fd !in old(open) && open == old(open) + {fd}
              && history == old(history) + [Opened(fd)]
              else open == old(open) && history == old(history)
    {
      if candidate < 0 || candidate in open {
        return -1;
      }
      open := open + {candidate};
      history := history + [Opened(candidate)];
      assert history[..|history| - 1] == old(history);
      return candidate;
    }

    /** `close` of a descriptor that is open. */
    method Close(fd: int)
      requires Valid() && fd in open
      modifies this
      ensures Valid() && open == old(open) - {fd} && history == old(history) + [Closed(fd)]
    {
      open := open - {fd};
      history := history + [Closed(fd)];
      assert history[..|history| - 1] == old(history);
    }
  }

  // ----- connections -----

  class Connection {
    var fd: int
    var fiber: Fiber
    var inbuf: string
    var active: bool
    var started: bool
    var closed: bool

    function Now(): Snapshot
      reads this
    {
      Snapshot(fd, fiber, inbuf, active, started, closed)
    }

    constructor ()
      ensures Now() == UNUSED
    {
      fd, fiber, inbuf, active, started, closed := 0, NoFiber, "", false, false, false;
    }

    /** Between two turns of the reactor. */
    predicate Idle()
      reads this
    {
      && (started ==> fiber == if closed then Terminated else Suspended)
      && (!started ==> fiber == NoFiber && !closed && inbuf == "")
      && (!closed ==> !HasHeaderEnd(inbuf))
    }

    predicate Open()
      reads this
    {
      active && !closed
    }

    method Reset(newFd: int)
      modifies this
      ensures Now() == Fresh(newFd)
    {
      fd := newFd;
      fiber := NoFiber;
      inbuf := "";
      active := true;
      started := false;
      closed := false;
    }

    /** The fiber from where it stands to its next suspension or its end: it takes one
        chunk, and either gives up, waits for more or answers. */
    method RunFiber(table: Descriptors, chunk: string)
      requires fiber == Suspended && started && Open() && !HasHeaderEnd(inbuf)
      requires table.Valid() && fd in table.open
      modifies this, table
      ensures Now() == Received(old(Now()), chunk) && Idle() && table.Valid()
      ensures table.open == if closed then old(table.open) - {fd} else old(table.open)
      ensures table.history == if closed then old(table.history) + [Closed(fd)] else old(table.history)
    {
      if chunk == "" {
        assert inbuf + chunk == inbuf;
        table.Close(fd);
        closed := true;
        fiber := Terminated;
        return;
      }
      inbuf := inbuf + chunk;
      if !HasHeaderEnd(inbuf) {
        return;
      }
      // parse, route and send the response
      table.Close(fd);
      closed := true;
      fiber := Terminated;
    }

    /** `service_connection`. A connection that is polled is never finished, so the
        fiber is always started or resumed, never resumed after its end. */
    method Service(table: Descriptors, chunk: string)
      requires Idle() && Open() && table.Valid() && fd in table.open
      modifies this, table
      ensures Now() == Received(old(Now()), chunk) && Idle() && table.Valid()
      ensures table.open == if closed then old(table.open) - {fd} else old(table.open)
      ensures table.history == if closed then old(table.history) + [Closed(fd)] else old(table.history)
    {
      if !started {
        started := true;
        fiber := Suspended;
        RunFiber(table, chunk);
      } else {
        assert fiber != Terminated;
        RunFiber(table, chunk);
      }
    }
  }

  // ----- the pollfd array -----

  /** Where nothing was written there is zero. */
  function CellOf(cells: map<nat, int>, offset: nat): int {
    if offset in cells then cells[offset] else 0
  }

  /** Raw memory; every access must stay inside it. */
  class PollMemory {
    const size: nat
    var cells: map<nat, int>

    constructor (bytes: nat)
      ensures size == bytes
    {
      size := bytes;
      cells := map[];
    }

    method Poke(offset: nat, width: nat, value: int)
      requires offset + width <= size
      modifies this
      ensures cells == old(cells)[offset := value]
    {
      cells := cells[offset := value];
    }

    /** One pollfd record: the descriptor, POLLIN asked for, nothing reported yet. */
    method PokeRecord(base: nat, fd: int)
      requires base + 8 <= size
      modifies this
      ensures CellOf(cells, base) == fd && CellOf(cells, base + 4) == POLLIN && CellOf(cells, base + 6) == 0
      ensures forall o: nat :: !(base <= o < base + 8) ==> CellOf(cells, o) == CellOf(old(cells), o)
    {
      Poke(base, 4, fd);
      Poke(base + 4, 2, POLLIN);
      Poke(base + 6, 2, 0);
    }

    method Peek(offset: nat, width: nat) returns (value: int)
      requires offset + width <= size
      ensures value == CellOf(cells, offset)
    {
      value := if offset in cells then cells[offset] else 0;
    }

    /** `poll` writes the `revents` field of each of the first `count` records: what the system
        reports about the descriptor there, for the events asked for. */
    method Poll(count: nat, reports: (int, int) -> int)
      requires 8 * count <= size
      modifies this
      ensures forall o: nat :: !(o % 8 == 6 && o < 8 * count) ==> CellOf(cells, o) == CellOf(old(cells), o)
      ensures forall p: nat :: p < count ==>
                CellOf(cells, 8 * p + 6) == reports(CellOf(old(cells), 8 * p), CellOf(old(cells), 8 * p + 4))
    {
      for p := 0 to count
        invariant forall o: nat :: !(o % 8 == 6 && o < 8 * p) ==> CellOf(cells, o) == CellOf(old(cells), o)
        invariant forall q: nat :: q < p ==>
                    CellOf(cells, 8 * q + 6) == reports(CellOf(old(cells), 8 * q), CellOf(old(cells), 8 * q + 4))
      {
        var fd := Peek(8 * p, 4);
        var events := Peek(8 * p + 4, 2);
        Poke(8 * p + 6, 2, reports(fd, events));
      }
    }
  }

  // ----- the pool -----

  /** Distinct connection objects, none of which is left half-way through a turn. */
  ghost predicate Pool(slots: seq<Connection>)
    reads set c | c in slots
  {
    && (forall i, j :: 0 <= i < j < |slots| ==> slots[i] != slots[j])
    && (forall c :: c in slots ==> c.Idle())
    && (forall i, j :: 0 <= i < j < |slots| && slots[i].Open() && slots[j].Open() ==> slots[i].fd != slots[j].fd)
  }

  /** The descriptors held by connections. */
  ghost function Held(slots: seq<Connection>): set<int>
    reads set c | c in slots
  {
    set c | c in slots && c.Open() :: c.fd
  }

  /** The listener and the held descriptors, and nothing else, are open. */
  ghost predicate Consistent(slots: seq<Connection>, table: Descriptors, listener: int)
    reads table, set c | c in slots
  {
    && Pool(slots) && table.Valid()
    && listener !in Held(slots)
    && table.open == Held(slots) + {listener}
  }

  /** At the head of the event loop every active slot is also unclosed. */
  ghost predicate AtHead(slots: seq<Connection>)
    reads set c | c in slots
  {
    forall c :: c in slots && c.active ==> !c.closed
  }

  /** The slots behind the poll records, in slot order. */
  ghost predicate Polled(slots: seq<Connection>, upTo: nat, pollMap: seq<nat>)
    requires upTo <= |slots|
    reads set c | c in slots
  {
    && (forall p :: 0 <= p < |pollMap| ==> pollMap[p] < upTo && slots[pollMap[p]].active)
    && (forall p, q :: 0 <= p < q < |pollMap| ==> pollMap[p] < pollMap[q])
    && (forall i :: 0 <= i < upTo && slots[i].active ==> i in pollMap)
  }

  /** The byte offset of the p-th connection's record; the listener's comes first. */
  function Record(p: nat): nat {
    (p + 1) * 8
  }

  lemma PolledTakes(slots: seq<Connection>, i: nat, pollMap: seq<nat>)
    requires i < |slots| && Polled(slots, i, pollMap) && slots[i].active
    ensures Polled(slots, i + 1, pollMap + [i])
  {
    forall j | 0 <= j < i + 1 && slots[j].active ensures j in pollMap + [i] {
      assert j == i || j in pollMap;
    }
  }

  /** One record asks whether there is something to read from a descriptor. */
  predicate Asks(cells: map<nat, int>, base: nat, fd: int) {
    CellOf(cells, base) == fd && CellOf(cells, base + 4) == POLLIN
  }

  /** The array asks about the listener and exactly the polled connections. */
  predicate Recorded(cells: map<nat, int>, listener: int, fds: seq<int>) {
    && Asks(cells, 0, listener)
    && forall p :: 0 <= p < |fds| ==> Asks(cells, Record(p), fds[p])
  }

  /** One more record behind those already written. */
  lemma RecordTaken(before: map<nat, int>, cells: map<nat, int>, listener: int, fds: seq<int>, fd: int)
    requires Recorded(before, listener, fds) && Asks(cells, Record(|fds|), fd)
    requires forall o: nat :: !(Record(|fds|) <= o < Record(|fds|) + 8) ==> CellOf(cells, o) == CellOf(before, o)
    ensures Recorded(cells, listener, fds + [fd])
  {
    hide CellOf;
    assert Asks(before, 0, listener);
    forall p | 0 <= p < |fds| ensures Asks(cells, Record(p), fds[p]) {
      assert Asks(before, Record(p), fds[p]);
    }
  }

  /** The descriptors behind the poll records. */
  ghost predicate Descriptive(slots: seq<Connection>, pollMap: seq<nat>, fds: seq<int>)
    reads set c | c in slots
  {
    |fds| == |pollMap| && forall p :: 0 <= p < |pollMap| ==> pollMap[p] < |slots| && fds[p] == slots[pollMap[p]].fd
  }

  /** Fill the pollfd array: the listener first, then the active slots. */
  method BuildPollSet(slots: seq<Connection>, listener: int, memory: PollMemory)
    returns (pollMap: seq<nat>, ghost fds: seq<int>)
    requires memory.size == (|slots| + 1) * 8
    modifies memory
    ensures Polled(slots, |slots|, pollMap) && |pollMap| <= |slots|
    ensures Descriptive(slots, pollMap, fds) && |fds| == |pollMap| && Recorded(memory.cells, listener, fds)
  {
    memory.PokeRecord(0, listener);
    pollMap, fds := [], [];
    var active := 0;
    var i := 0;
    while i < |slots|
      invariant i <= |slots| && active == |pollMap| <= i
      invariant Polled(slots, i, pollMap)
      invariant Descriptive(slots, pollMap, fds) && Recorded(memory.cells, listener, fds)
    {
      hide Recorded, CellOf;
      if slots[i].active {
        ghost var before := memory.cells;
        memory.PokeRecord(Record(active), slots[i].fd);
        RecordTaken(before, memory.cells, listener, fds, slots[i].fd);
        PolledTakes(slots, i, pollMap);
        pollMap, fds := pollMap + [i], fds + [slots[i].fd];
        active := active + 1;
      }
      i := i + 1;
    }
  }

  ghost function Snapshots(slots: seq<Connection>): (pool: seq<Snapshot>)
    reads set c | c in slots
    ensures |pool| == |slots| && forall i :: 0 <= i < |slots| ==> pool[i] == slots[i].Now()
  {
    seq(|slots|, i requires 0 <= i < |slots| reads set c | c in slots => slots[i].Now())
  }

  // ----- one turn of the event loop -----

  /** The p-th connection's record holds what is reported about a descriptor. */
  predicate Answers(cells: map<nat, int>, p: nat, fd: int, reports: (int, int) -> int) {
    CellOf(cells, Record(p) + 6) == reports(fd, POLLIN)
  }

  /** The system has reported about the listener and the polled descriptors. */
  predicate Reported(cells: map<nat, int>, listener: int, fds: seq<int>, reports: (int, int) -> int) {
    && CellOf(cells, 6) == reports(listener, POLLIN)
    && forall p :: 0 <= p < |fds| ==> Answers(cells, p, fds[p], reports)
  }

  lemma PollReports(before: map<nat, int>, cells: map<nat, int>, listener: int, fds: seq<int>,
    reports: (int, int) -> int)
    requires Recorded(before, listener, fds)
    requires forall p: nat :: p < |fds| + 1 ==>
               CellOf(cells, 8 * p + 6) == reports(CellOf(before, 8 * p), CellOf(before, 8 * p + 4))
    ensures Reported(cells, listener, fds, reports)
  {
    hide CellOf;
    assert CellOf(cells, 8 * 0 + 6) == reports(CellOf(before, 8 * 0), CellOf(before, 8 * 0 + 4));
    forall p | 0 <= p < |fds| ensures Answers(cells, p, fds[p], reports) {
      assert Asks(before, Record(p), fds[p]);
      assert CellOf(cells, 8 * (p + 1) + 6) == reports(CellOf(before, 8 * (p + 1)), CellOf(before, 8 * (p + 1) + 4));
    }
  }

  /** The first connections of the poll map have been serviced. */
  predicate Progress(pool: seq<Snapshot>, current: seq<Snapshot>, pollMap: seq<nat>, p: nat, now: Turn) {
    && |current| == |pool| && p <= |pollMap|
    && forall i :: 0 <= i < |pool| ==> current[i] == if i in pollMap[..p] then Serviced(pool[i], now) else pool[i]
  }

  predicate Increasing(pollMap: seq<nat>, n: nat) {
    && (forall p :: 0 <= p < |pollMap| ==> pollMap[p] < n)
    && (forall p, q :: 0 <= p < q < |pollMap| ==> pollMap[p] < pollMap[q])
  }

  lemma NotYetServiced(pool: seq<Snapshot>, current: seq<Snapshot>, pollMap: seq<nat>, p: nat, now: Turn)
    requires Progress(pool, current, pollMap, p, now) && p < |pollMap| && Increasing(pollMap, |pool|)
    ensures current[pollMap[p]] == pool[pollMap[p]]
  {
    assert pollMap[p] !in pollMap[..p];
  }

  lemma ProgressNext(pool: seq<Snapshot>,
    current: seq<Snapshot>, next: seq<Snapshot>, pollMap: seq<nat>, p: nat, now: Turn)
    requires Progress(pool, current, pollMap, p, now) && p < |pollMap| && Increasing(pollMap, |pool|)
    requires next == current[pollMap[p] := Serviced(pool[pollMap[p]], now)]
    ensures Progress(pool, next, pollMap, p + 1, now)
  {
    hide Serviced;
    assert pollMap[..p + 1] == pollMap[..p] + [pollMap[p]];
  }

  lemma NoProgress(pool: seq<Snapshot>, pollMap: seq<nat>, now: Turn)
    ensures Progress(pool, pool, pollMap, 0, now)
  {
  }

  lemma AllServiced(pool: seq<Snapshot>, current: seq<Snapshot>, pollMap: seq<nat>, now: Turn)
    requires Progress(pool, current, pollMap, |pollMap|, now)
    requires forall i :: 0 <= i < |pool| && pool[i].active ==> i in pollMap
    ensures forall i :: 0 <= i < |pool| ==> current[i] == Serviced(pool[i], now)
  {
    assert pollMap[..|pollMap|] == pollMap;
  }

  /** The history has grown by closings only. */
  ghost predicate OnlyClosings(before: seq<Event>, after: seq<Event>) {
    before <= after && forall e :: e in after[|before|..] ==> e.Closed?
  }

  lemma OneMoreClosing(before: seq<Event>, after: seq<Event>, fd: int)
    requires OnlyClosings(before, after)
    ensures OnlyClosings(before, after + [Closed(fd)])
  {
    assert (after + [Closed(fd)])[|before|..] == after[|before|..] + [Closed(fd)];
  }

  lemma ClosingsTransitive(first: seq<Event>, before: seq<Event>)
    requires OnlyClosings(first, before)
    ensures forall after :: OnlyClosings(before, after) ==> OnlyClosings(first, after)
  {
    forall after | OnlyClosings(before, after) ensures OnlyClosings(first, after) {
      assert after == before + after[|before|..];
      assert after[|first|..] == before[|first|..] + after[|before|..];
    }
  }

  /** One polled connection: servicing it keeps pool and descriptor table in step. */
  method ServiceSlot(slots: seq<Connection>, k: nat, table: Descriptors, listener: int, revents: int, now: Turn)
    requires k < |slots| && Consistent(slots, table, listener) && slots[k].Open()
    requires revents == now.reports(slots[k].fd, POLLIN)
    modifies slots[k], table
    ensures Consistent(slots, table, listener)
    ensures Snapshots(slots) == old(Snapshots(slots))[k := Serviced(old(slots[k].Now()), now)]
    ensures OnlyClosings(old(table.history), table.history)
  {
    hide HasHeaderEnd;
    if revents != 0 {
      var c := slots[k];
      ghost var before := Held(slots);
      assert c.fd in before;
      forall d | d in slots && d != c && d.Open() ensures d.fd != c.fd {
        var i :| 0 <= i < |slots| && slots[i] == d;
      }
      assert OnlyClosings(table.history, table.history);
      OneMoreClosing(table.history, table.history, c.fd);
      c.Service(table, now.received(c.fd));
      assert forall d :: d in slots && d != c ==>
               d.Open() == old(d.Open()) && d.fd == old(d.fd) && d.Idle() == old(d.Idle());
      assert Held(slots) == if c.closed then before - {c.fd} else before;
    }
  }

  /** The records lie inside the array and hold what is reported about the connections. */
  lemma RecordsAnswer(pool: seq<Snapshot>, cells: map<nat, int>, size: nat, pollMap: seq<nat>, listener: int,
    fds: seq<int>, now: Turn)
    requires |pollMap| == |fds| <= |pool| && size == (|pool| + 1) * 8 && Reported(cells, listener, fds, now.reports)
    requires forall p :: 0 <= p < |pollMap| ==> pollMap[p] < |pool| && pool[pollMap[p]].fd == fds[p]
    ensures forall p :: 0 <= p < |pollMap| ==>
              Record(p) + 8 <= size && Answers(cells, p, pool[pollMap[p]].fd, now.reports)
  {
    hide Answers;
    forall p | 0 <= p < |pollMap| ensures Answers(cells, p, pool[pollMap[p]].fd, now.reports) {
      assert Answers(cells, p, fds[p], now.reports);
    }
  }

  /** What the p-th poll record tells about is done. */
  method ServiceRecord(slots: seq<Connection>, p: nat, table: Descriptors, listener: int, memory: PollMemory,
    pollMap: seq<nat>, now: Turn, ghost pool: seq<Snapshot>)
    requires p < |pollMap| && Increasing(pollMap, |pool|) && |pool| == |slots| && Record(p) + 8 <= memory.size
    requires pool[pollMap[p]].Open() && Answers(memory.cells, p, pool[pollMap[p]].fd, now.reports)
    requires Consistent(slots, table, listener) && Progress(pool, Snapshots(slots), pollMap, p, now)
    modifies table, set c | c in slots
    ensures Consistent(slots, table, listener) && Progress(pool, Snapshots(slots), pollMap, p + 1, now)
    ensures OnlyClosings(old(table.history), table.history)
  {
    ghost var current := Snapshots(slots);
    NotYetServiced(pool, current, pollMap, p, now);
    hide HasHeaderEnd, Received, Consistent, OnlyClosings, CellOf, Record, Serviced, Progress, Snapshots;
    var k := pollMap[p];
    assert slots[k].Now() == pool[k];
    var revents := memory.Peek(Record(p) + 6, 2);
    ServiceSlot(slots, k, table, listener, revents, now);
    ProgressNext(pool, current, Snapshots(slots), pollMap, p, now);
  }

  /** The active slots are those behind the poll map. */
  predicate Indexes(pool: seq<Snapshot>, pollMap: seq<nat>) {
    && Increasing(pollMap, |pool|)
    && forall i :: 0 <= i < |pool| ==> (pool[i].active <==> i in pollMap)
  }

  lemma PolledBefore(slots: seq<Connection>, pollMap: seq<nat>)
    ensures Indexes(Snapshots(slots), pollMap) <==> Polled(slots, |slots|, pollMap)
  {
  }

  lemma StillPolled(slots: seq<Connection>, pool: seq<Snapshot>, pollMap: seq<nat>, now: Turn)
    requires |pool| == |slots| && Indexes(pool, pollMap)
    requires forall i :: 0 <= i < |pool| ==> Snapshots(slots)[i] == Serviced(pool[i], now)
    ensures Polled(slots, |slots|, pollMap)
  {
    hide Polled, HasHeaderEnd;
    PolledBefore(slots, pollMap);
  }

  lemma NoClosings(history: seq<Event>)
    ensures OnlyClosings(history, history)
  {
  }

  lemma BeforeService(slots: seq<Connection>, table: Descriptors, listener: int, memory: PollMemory, pollMap: seq<nat>,
    now: Turn, fds: seq<int>)
    requires Consistent(slots, table, listener) && AtHead(slots) && Polled(slots, |slots|, pollMap)
    requires |pollMap| <= |slots| && memory.size == (|slots| + 1) * 8
    requires Descriptive(slots, pollMap, fds) && Reported(memory.cells, listener, fds, now.reports)
    ensures Increasing(pollMap, |slots|)
    ensures forall i :: 0 <= i < |slots| && Snapshots(slots)[i].active ==> i in pollMap
    ensures forall p :: 0 <= p < |pollMap| ==>
              && pollMap[p] < |slots| && Snapshots(slots)[pollMap[p]].Open()
              && Record(p) + 8 <= memory.size
              && Answers(memory.cells, p, Snapshots(slots)[pollMap[p]].fd, now.reports)
  {
    var pool := Snapshots(slots);
    assert forall p :: 0 <= p < |pollMap| ==> pool[pollMap[p]].Open() && pool[pollMap[p]].fd == fds[p];
    RecordsAnswer(pool, memory.cells, memory.size, pollMap, listener, fds, now);
  }

  /** Every polled connection that is ready is serviced, and no other. */
  method ServiceReady(slots: seq<Connection>, table: Descriptors, listener: int, memory: PollMemory, pollMap: seq<nat>,
    now: Turn, ghost fds: seq<int>)
    requires Consistent(slots, table, listener) && AtHead(slots) && Polled(slots, |slots|, pollMap)
    requires |pollMap| <= |slots| && memory.size == (|slots| + 1) * 8
    requires Descriptive(slots, pollMap, fds) && Reported(memory.cells, listener, fds, now.reports)
    modifies table, set c | c in slots
    ensures Consistent(slots, table, listener) && OnlyClosings(old(table.history), table.history)
    ensures forall i :: 0 <= i < |slots| ==> slots[i].Now() == Serviced(old(slots[i].Now()), now)
    ensures Polled(slots, |slots|, pollMap)
  {
    hide HasHeaderEnd, Consistent, Polled, Descriptive, AtHead, OnlyClosings, Record, Reported, Answers, Serviced,
         Progress, Snapshots, Increasing;
    ghost var pool := Snapshots(slots);
    PolledBefore(slots, pollMap);
    BeforeService(slots, table, listener, memory, pollMap, now, fds);
    NoProgress(pool, pollMap, now);
    NoClosings(table.history);
    var p := 0;
    while p < |pollMap|
      invariant p <= |pollMap|
      invariant OnlyClosings(old(table.history), table.history)
      invariant Consistent(slots, table, listener)
      invariant Progress(pool, Snapshots(slots), pollMap, p, now)
    {
      ClosingsTransitive(old(table.history), table.history);
      ServiceRecord(slots, p, table, listener, memory, pollMap, now, pool);
      p := p + 1;
    }
    AllServiced(pool, Snapshots(slots), pollMap, now);
    StillPolled(slots, pool, pollMap, now);
  }

  lemma {:induction false} Gap(pollMap: seq<nat>, n: nat) returns (free: nat)
    requires forall p :: 0 <= p < |pollMap| ==> pollMap[p] < n
    requires forall p, q :: 0 <= p < q < |pollMap| ==> pollMap[p] < pollMap[q]
    requires |pollMap| < n
    ensures free < n && free !in pollMap
    decreases n
  {
    var m := |pollMap| - 1;
    if pollMap == [] || pollMap[m] < n - 1 {
      return n - 1;
    }
    free := Gap(pollMap[..m], n - 1);
  }

  /** With fewer records than slots, some slot is idle. */
  lemma SomeSlotIsFree(slots: seq<Connection>, pollMap: seq<nat>) returns (free: nat)
    requires Polled(slots, |slots|, pollMap) && |pollMap| < |slots|
    ensures free < |slots| && !slots[free].active
  {
    free := Gap(pollMap, |slots|);
  }

  /** A slot that is not in use is given to a descriptor just opened. */
  method TakeSlot(slots: seq<Connection>, i: nat, table: Descriptors, listener: int, fd: int)
    requires i < |slots| && !slots[i].active && Pool(slots) && table.Valid()
    requires listener !in Held(slots) && fd !in Held(slots) && fd != listener
    requires table.open == Held(slots) + {listener} + {fd}
    modifies slots[i]
    ensures Consistent(slots, table, listener) && Held(slots) == old(Held(slots)) + {fd}
    ensures Snapshots(slots) == old(Snapshots(slots))[i := Fresh(fd)]
  {
    hide HasHeaderEnd;
    ghost var before := Held(slots);
    var c := slots[i];
    assert c !in set d | d in slots && d.Open();
    assert !HasHeaderEnd("") by { EmptyHasNoEnd(); }
    c.Reset(fd);
    assert forall d :: d in slots && d != c ==>
             d.Open() == old(d.Open()) && d.fd == old(d.fd) && d.Idle() == old(d.Idle());
    assert Held(slots) == before + {fd};
  }

  lemma EmptyHasNoEnd()
    ensures !HasHeaderEnd("")
  {
  }

  /** A new connection goes into the first idle slot; there always is one. */
  method AcceptPending(slots: seq<Connection>, table: Descriptors, listener: int, pollMap: seq<nat>, candidate: int)
    requires Consistent(slots, table, listener) && Polled(slots, |slots|, pollMap) && |pollMap| < |slots|
    modifies table, set c | c in slots
    ensures Consistent(slots, table, listener)
    ensures FirstIdle(old(Snapshots(slots))).Some?
    ensures if candidate >= 0 && candidate !in old(table.open)
            then Snapshots(slots) == old(Snapshots(slots))[FirstIdle(old(Snapshots(slots))).value := Fresh(candidate)]
                 && table.open == old(table.open) + {candidate}
                 && table.history == old(table.history) + [Opened(candidate)]
            else Snapshots(slots) == old(Snapshots(slots))
                 && table.open == old(table.open) && table.history == old(table.history)
    ensures Held(slots) == old(Held(slots)) + (table.open - old(table.open))
  {
    hide Snapshots, FirstIdle, HasHeaderEnd;
    ghost var pool := Snapshots(slots);
    ghost var idle := SomeSlotIsFree(slots, pollMap);
    assert !pool[idle].active && pool[idle] in pool;
    var cfd := table.Open(candidate);
    if cfd >= 0 {
      var i := 0;
      while slots[i].active
        invariant 0 <= i <= idle
        invariant forall j :: 0 <= j < i ==> slots[j].active
        decreases |slots| - i
      {
        i := i + 1;
      }
      FirstIdleIs(pool, i);
      TakeSlot(slots, i, table, listener, cfd);
    }
  }

  /** A finished connection gives up its slot; nothing is closed by that. */
  method ReleaseSlot(slots: seq<Connection>, i: nat, table: Descriptors, listener: int)
    requires i < |slots| && Consistent(slots, table, listener)
    modifies slots[i]
    ensures Consistent(slots, table, listener) && Held(slots) == old(Held(slots))
    ensures Snapshots(slots) == old(Snapshots(slots))[i := Released(old(slots[i].Now()))]
  {
    hide HasHeaderEnd;
    if slots[i].active && slots[i].closed {
      slots[i].active := false;
      assert forall d :: d in slots ==> d.Open() == old(d.Open()) && d.fd == old(d.fd) && d.Idle() == old(d.Idle());
      assert Held(slots) == old(Held(slots));
    }
  }

  /** Release the slots whose connection has finished. */
  method ReleaseFinished(slots: seq<Connection>, table: Descriptors, listener: int)
    requires Consistent(slots, table, listener)
    modifies set c | c in slots
    ensures Consistent(slots, table, listener) && AtHead(slots)
    ensures forall i :: 0 <= i < |slots| ==> slots[i].Now() == Released(old(slots[i].Now()))
    ensures Held(slots) == old(Held(slots)) && table.history == old(table.history)
  {
    hide Consistent, Held, Snapshots;
    ghost var pool := Snapshots(slots);
    var i := 0;
    while i < |slots|
      invariant i <= |slots|
      invariant Consistent(slots, table, listener) && Held(slots) == old(Held(slots))
      invariant forall j :: 0 <= j < |slots| ==> Snapshots(slots)[j] == if j < i then Released(pool[j]) else pool[j]
    {
      ReleaseSlot(slots, i, table, listener);
      i := i + 1;
    }
    assert forall j :: 0 <= j < |slots| ==> slots[j].Now() == Snapshots(slots)[j];
  }

  // ----- the whole run -----

  const POOL_SIZE: nat := 64

  const UNUSED_POOL: seq<Snapshot> := seq(POOL_SIZE, i => UNUSED)

  method MakePool() returns (slots: seq<Connection>)
    ensures |slots| == POOL_SIZE && Pool(slots) && AtHead(slots) && Held(slots) == {}
    ensures Snapshots(slots) == UNUSED_POOL && forall c :: c in slots ==> fresh(c) && c.Now() == UNUSED
  {
    slots := [];
    while |slots| < POOL_SIZE
      invariant |slots| <= POOL_SIZE
      invariant forall c :: c in slots ==> fresh(c) && c.Now() == UNUSED
      invariant forall i, j :: 0 <= i < j < |slots| ==> slots[i] != slots[j]
      decreases POOL_SIZE - |slots|
    {
      var c := new Connection();
      slots := slots + [c];
    }
    UnusedIsIdle(slots);
  }

  lemma UnusedIsIdle(slots: seq<Connection>)
    requires |slots| == POOL_SIZE && forall c :: c in slots ==> c.Now() == UNUSED
    requires forall i, j :: 0 <= i < j < |slots| ==> slots[i] != slots[j]
    ensures Pool(slots) && AtHead(slots) && Held(slots) == {} && Snapshots(slots) == UNUSED_POOL
  {
    forall c | c in slots ensures c.Idle() && !c.active {
      assert c.Now().inbuf == "";
      EmptyHasNoEnd();
    }
  }

  lemma {:induction false} IncreasingIsAbove(pollMap: seq<nat>, n: nat, p: nat)
    requires Increasing(pollMap, n) && p < |pollMap|
    ensures p <= pollMap[p]
  {
    if p > 0 {
      IncreasingIsAbove(pollMap, n, p - 1);
    }
  }

  lemma {:induction false} IncreasingIsBelow(pollMap: seq<nat>, n: nat, p: nat)
    requires Increasing(pollMap, n) && p < |pollMap|
    ensures pollMap[p] + (|pollMap| - p) <= n
    decreases |pollMap| - p
  {
    if p + 1 < |pollMap| {
      IncreasingIsBelow(pollMap, n, p + 1);
    }
  }

  /** As many records as slots: every slot is active. */
  lemma FullPool(pool: seq<Snapshot>, pollMap: seq<nat>)
    requires Indexes(pool, pollMap) && |pollMap| >= |pool|
    ensures forall i :: 0 <= i < |pool| ==> pool[i].active
  {
    forall i | 0 <= i < |pool| ensures pool[i].active {
      IncreasingIsAbove(pollMap, |pool|, i);
      IncreasingIsBelow(pollMap, |pool|, i);
      assert pollMap[i] == i;
    }
  }

  lemma AcceptsExact(pool: seq<Snapshot>,
    serviced: seq<Snapshot>, pollMap: seq<nat>, open: set<int>, listener: int, now: Turn)
    requires |serviced| == |pool| && forall i :: 0 <= i < |pool| ==> serviced[i] == Serviced(pool[i], now)
    requires Indexes(pool, pollMap) && open == (set v | v in serviced && v.Open() :: v.fd) + {listener}
    ensures Accepts(pool, listener, now)
            <==> Ready(now, listener) && |pollMap| < |pool| && now.candidate >= 0 && now.candidate !in open
  {
    IdleExact(pool, pollMap);
    OpenExact(pool, serviced, now, now.candidate);
    hide HasHeaderEnd, FirstIdle, Received, Serviced, Indexes, Ready;
    assert forall v :: v in serviced && v.Open() ==> v.fd in open;
  }

  lemma IdleExact(pool: seq<Snapshot>, pollMap: seq<nat>)
    requires Indexes(pool, pollMap)
    ensures FirstIdle(pool).Some? <==> |pollMap| < |pool|
  {
    hide FirstIdle;
    assert forall i :: 0 <= i < |pool| ==> pool[i] in pool;
    if |pollMap| >= |pool| {
      FullPool(pool, pollMap);
    } else {
      var free := Gap(pollMap, |pool|);
    }
  }

  /** The descriptors still open after servicing. */
  lemma OpenExact(pool: seq<Snapshot>, serviced: seq<Snapshot>, now: Turn, fd: int)
    requires |serviced| == |pool| && forall i :: 0 <= i < |pool| ==> serviced[i] == Serviced(pool[i], now)
    ensures (exists v :: v in serviced && v.Open() && v.fd == fd)
            <==> exists v :: v in pool && Serviced(v, now).Open() && v.fd == fd
  {
    hide HasHeaderEnd, Received;
    forall v ensures Serviced(v, now).fd == v.fd {
      ReceivedKeepsDescriptor(v, now.received(v.fd));
    }
    assert forall v :: v in pool ==> Serviced(v, now) in serviced by {
      forall v | v in pool ensures Serviced(v, now) in serviced {
        var i :| 0 <= i < |pool| && pool[i] == v;
        assert serviced[i] == Serviced(v, now);
      }
    }
    forall v | v in serviced ensures exists u :: u in pool && Serviced(u, now) == v {
      var i :| 0 <= i < |serviced| && serviced[i] == v;
      assert pool[i] in pool;
    }
  }

  lemma HeldSnapshots(slots: seq<Connection>)
    ensures Held(slots) == set v | v in Snapshots(slots) && v.Open() :: v.fd
  {
    forall c | c in slots ensures c.Now() in Snapshots(slots) {
      var i :| 0 <= i < |slots| && slots[i] == c;
      assert Snapshots(slots)[i] == c.Now();
    }
  }

  /** One turn: poll, service, accept, release. */
  method RunTurn(slots: seq<Connection>, table: Descriptors, listener: int, memory: PollMemory, now: Turn)
    returns (stop: bool)
    requires Consistent(slots, table, listener) && AtHead(slots) && memory.size == (|slots| + 1) * 8
    modifies table, memory, set c | c in slots
    ensures Consistent(slots, table, listener) && AtHead(slots) && old(table.history) <= table.history
    ensures stop <==> now.pollResult < 0
    ensures stop ==> Snapshots(slots) == old(Snapshots(slots)) && table.history == old(table.history)
    ensures !stop ==> Snapshots(slots) == PoolAfterTurn(old(Snapshots(slots)), listener, now)
  {
    hide Snapshots, FirstIdle, HasHeaderEnd, Accepts, AfterTurn, Held, AtHead, Polled, Descriptive, Recorded, Reported,
         Serviced, Released, Indexes, Pool, PoolAfterTurn;
    ghost var pool := Snapshots(slots);
    var pollMap, fds := BuildPollSet(slots, listener, memory);
    PolledBefore(slots, pollMap);
    ghost var asked := memory.cells;
    memory.Poll(|pollMap| + 1, now.reports);
    PollReports(asked, memory.cells, listener, fds, now.reports);
    if now.pollResult < 0 {
      return true;
    }
    ServiceReady(slots, table, listener, memory, pollMap, now, fds);
    ghost var serviced := Snapshots(slots);
    HeldSnapshots(slots);
    AcceptsExact(pool, serviced, pollMap, table.open, listener, now);
    IdleStays(pool, serviced, now);
    var pending := memory.Peek(6, 2);
    ListenerReported(memory.cells, listener, fds, now);
    if pending != 0 && |pollMap| < |slots| {
      AcceptPending(slots, table, listener, pollMap, now.candidate);
    }
    ghost var accepted := Snapshots(slots);
    ReleaseFinished(slots, table, listener);
    forall i | 0 <= i < |slots| ensures Snapshots(slots)[i] == AfterTurn(pool, i, listener, now) {
      TurnExact(pool, serviced, accepted, i, listener, now);
    }
    return false;
  }

  lemma ListenerReported(cells: map<nat, int>, listener: int, fds: seq<int>, now: Turn)
    requires Reported(cells, listener, fds, now.reports)
    ensures CellOf(cells, 6) != 0 <==> Ready(now, listener)
  {
  }

  lemma TableIsBalanced(table: Descriptors)
    requires table.Valid()
    ensures Balanced(table.history, table.open)
  {
    OrderlyIsBalanced(table.history);
    hide Balanced;
  }

  /** The event loop, over the turns of a script until `poll` fails. */
  method RunLoop(slots: seq<Connection>, table: Descriptors, listener: int, memory: PollMemory, script: seq<Turn>)
    returns (stopped: bool)
    requires Consistent(slots, table, listener) && AtHead(slots) && memory.size == (|slots| + 1) * 8
    modifies table, memory, set c | c in slots
    ensures Consistent(slots, table, listener) && AtHead(slots) && old(table.history) <= table.history
    ensures stopped <==> TurnsRun(script) < |script|
    ensures Snapshots(slots) == AfterTurns(old(Snapshots(slots)), listener, script, TurnsRun(script))
  {
    hide Snapshots, PoolAfterTurn, TurnsRun, HasHeaderEnd, Consistent, AfterTurns, AtHead;
    ghost var pool := Snapshots(slots);
    stopped := false;
    var turn := 0;
    ghost var done: nat := 0;
    NoTurn(pool, listener, script);
    while turn < |script| && !stopped
      invariant turn == done + if stopped then 1 else 0
      invariant turn <= |script| && done <= TurnsRun(script) && (stopped ==> done == TurnsRun(script))
      invariant Consistent(slots, table, listener) && AtHead(slots) && old(table.history) <= table.history
      invariant Snapshots(slots) == AfterTurns(pool, listener, script, done)
    {
      NextTurn(pool, listener, script, done);
      stopped := RunTurn(slots, table, listener, memory, script[turn]);
      turn := turn + 1;
      done := if stopped then done else done + 1;
    }
  }

  /** Without the listener exactly the held descriptors are open. */
  method CloseListener(slots: seq<Connection>, table: Descriptors, listener: int)
    requires Consistent(slots, table, listener)
    modifies table
    ensures table.Valid() && Pool(slots) && listener !in Held(slots) && table.open == Held(slots)
    ensures table.history == old(table.history) + [Closed(listener)]
  {
    hide HasHeaderEnd;
    table.Close(listener);
  }

  /** The server over any finite stretch of the system's answers: at the head of its loop the
      slots are as the turns so far make them, exactly the listener and the descriptors held by
      active slots are open, each held by one slot, and every accepted descriptor has been
      closed exactly as often as it was opened, but for one closing that a descriptor still
      held has to come. */
  method RunHttpServer(table: Descriptors, listenCandidate: int, script: seq<Turn>)
    returns (listener: int, slots: seq<Connection>, stopped: bool)
    requires table.Valid() && table.open == {}
    modifies table
    ensures table.Valid() && old(table.history) <= table.history && Balanced(table.history, table.open)
    ensures listener < 0 ==> table.open == {} && table.history == old(table.history)
    ensures listener >= 0 ==>
              && Pool(slots) && AtHead(slots)
              && listener !in Held(slots)
              && table.open == (if stopped then Held(slots) else Held(slots) + {listener})
              && (stopped <==> TurnsRun(script) < |script|)
              && Snapshots(slots) == AfterTurns(UNUSED_POOL, listener, script, TurnsRun(script))
  {
    hide Balanced, Snapshots, TurnsRun, UNUSED_POOL, UNUSED, HasHeaderEnd, Pool, Held, AfterTurns, AtHead,
         Descriptors.Valid;
    listener := table.Open(listenCandidate);
    slots, stopped := [], true;
    if listener < 0 {
      TableIsBalanced(table);
      return;
    }
    slots := MakePool();
    var memory := new PollMemory((POOL_SIZE + 1) * 8);
    stopped := RunLoop(slots, table, listener, memory, script);
    if stopped {
      CloseListener(slots, table, listener);
    }
    TableIsBalanced(table);
  }
}
