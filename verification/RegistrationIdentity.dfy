/** PHP registers a callable once and unregisters that very callable: a queue of callables, and
    what its members and their order say about the calls before. */
module RegistrationIdentity {
  import opened Prelude
  import opened Ast
  import opened Names
  import opened Interpret
  import opened Registration
  import opened RegistrationRun
  import opened RegistrationText
  import opened RegistrationQueue

  // ----- callables -----

  /** A function, the closure made by a statement, or a closure that other code provides. */
  datatype Callable = FunctionNamed(key: string) | ClosureOf(statement: nat) | OtherCallable(tag: nat)

  /** Which closure a computed value is. */
  type Identify = (Expr, Env) -> Callable

  datatype Entry = Entry(id: Callable, rule: Rule)

  function NameOf(text: string): Callable {
    FunctionNamed(SymbolKey(CallableName(text)))
  }

  function IdentityAt(program: Block, i: nat, computed: Computed, identify: Identify): Callable
    requires i < |program| && IsCall(program[i])
  {
    var o := OriginOf(program, i, program[i].expr.args[0], {});
    match o.expr
    case StringLiteral(s) => NameOf(s)
    case Closure(_, _, _, _) => ClosureOf(o.at)
    case _ =>
      var vars := VarsAt(program, o.at, {}, computed);
      match computed(o.expr, vars)
      case TextValue(s) => NameOf(s)
      case _ => identify(o.expr, vars)
  }

  /** The callable that the i-th statement registers or unregisters, with its rule. */
  function EntryAt(program: Block, i: nat, computed: Computed, identify: Identify): Option<Entry>
    requires i < |program| && IsCall(program[i])
  {
    match Meant(program, i, computed)
    case None => None
    case Some(rule) => Some(Entry(IdentityAt(program, i, computed, identify), rule))
  }

  // ----- the queue -----

  function IndexOf(queue: seq<Entry>, id: Callable): (j: Option<nat>)
    ensures j.None? <==> forall e :: e in queue ==> e.id != id
    ensures j.Some? ==> j.value < |queue| && queue[j.value].id == id
  {
    if queue == [] then None
    else if queue[0].id == id then Some(0)
    else
      match IndexOf(queue[1..], id)
      case None =>
        assert queue == [queue[0]] + queue[1..];
        None
      case Some(j) => Some(j + 1)
  }

  function Enqueued(queue: seq<Entry>, entry: Option<Entry>, prepend: bool): seq<Entry> {
    if entry.None? || IndexOf(queue, entry.value.id).Some? then queue
    else if prepend then [entry.value] + queue
    else queue + [entry.value]
  }

  function Without<T>(s: seq<T>, j: nat): seq<T>
    requires j < |s|
  {
    s[..j] + s[j + 1..]
  }

  function Dequeued(queue: seq<Entry>, entry: Option<Entry>): seq<Entry> {
    if entry.None? then queue
    else
      match IndexOf(queue, entry.value.id)
      case None => queue
      case Some(j) => Without(queue, j)
  }

  /** The callables registered after n statements. */
  function CallablesAt(program: Block, n: nat, computed: Computed, identify: Identify): seq<Entry>
    requires n <= |program|
  {
    if n == 0 then []
    else
      var queue := CallablesAt(program, n - 1, computed, identify);
      if Registers(program, n - 1)
        then Enqueued(queue, EntryAt(program, n - 1, computed, identify), Prepends(program[n - 1]))
      else if Unregisters(program, n - 1) then Dequeued(queue, EntryAt(program, n - 1, computed, identify))
      else queue
  }

  function Rules(queue: seq<Entry>): (rules: seq<Rule>)
    ensures |rules| == |queue| && forall k :: 0 <= k < |queue| ==> rules[k] == queue[k].rule
  {
    if queue == [] then [] else [queue[0].rule] + Rules(queue[1..])
  }

  // ----- known callables -----

  /** The last call among the first n statements that registers or unregisters a callable. */
  function LastCallOf(program: Block, n: nat, id: Callable, computed: Computed, identify: Identify): (k: Option<nat>)
    requires n <= |program|
    ensures k.Some? ==> k.value < n && (Registers(program, k.value) || Unregisters(program, k.value))
  {
    if n == 0 then None
    else if (Registers(program, n - 1) || Unregisters(program, n - 1))
            && EntryAt(program, n - 1, computed, identify).Some?
            && EntryAt(program, n - 1, computed, identify).value.id == id then Some(n - 1)
    else LastCallOf(program, n - 1, id, computed, identify)
  }

  predicate Known(program: Block, n: nat, id: Callable, computed: Computed, identify: Identify)
    requires n <= |program|
  {
    var k := LastCallOf(program, n, id, computed, identify);
    k.Some? && Registers(program, k.value)
  }

  ghost predicate Distinct(queue: seq<Entry>) {
    forall j, k :: 0 <= j < k < |queue| ==> queue[j].id != queue[k].id
  }

  lemma EnqueuedKeeps(queue: seq<Entry>, entry: Option<Entry>, prepend: bool, id: Callable)
    requires Distinct(queue)
    ensures var next := Enqueued(queue, entry, prepend);
            && Distinct(next)
            && (IndexOf(next, id).Some? <==> IndexOf(queue, id).Some? || (entry.Some? && entry.value.id == id))
  {
    var next := Enqueued(queue, entry, prepend);
    if next != queue {
      assert forall e :: e in next <==> e in queue || e == entry.value;
    }
  }

  lemma DequeuedKeeps(queue: seq<Entry>, entry: Option<Entry>, id: Callable)
    requires Distinct(queue)
    ensures var next := Dequeued(queue, entry);
            && Distinct(next)
            && (IndexOf(next, id).Some? <==> IndexOf(queue, id).Some? && !(entry.Some? && entry.value.id == id))
  {
    if entry.Some? && IndexOf(queue, entry.value.id).Some? {
      var j := IndexOf(queue, entry.value.id).value;
      assert queue == queue[..j] + [queue[j]] + queue[j + 1..];
      assert forall e :: e in queue <==> e in Dequeued(queue, entry) || e == queue[j];
      assert forall e :: e in Dequeued(queue, entry) ==> e.id != queue[j].id;
    }
  }

  /** A callable is in the queue exactly when the last call with it registers. */
  lemma {:induction false} KnownExact(program: Block, n: nat, id: Callable, computed: Computed, identify: Identify)
    requires n <= |program|
    ensures Distinct(CallablesAt(program, n, computed, identify))
    ensures IndexOf(CallablesAt(program, n, computed, identify), id).Some?
            <==> Known(program, n, id, computed, identify)
  {
    hide EntryAt, Enqueued, Dequeued, IndexOf, Prepends, CalleeAt, REGISTER, UNREGISTER;
    if n > 0 {
      KnownExact(program, n - 1, id, computed, identify);
      var queue := CallablesAt(program, n - 1, computed, identify);
      if Registers(program, n - 1) {
        EnqueuedKeeps(queue, EntryAt(program, n - 1, computed, identify), Prepends(program[n - 1]), id);
      } else if Unregisters(program, n - 1) {
        DequeuedKeeps(queue, EntryAt(program, n - 1, computed, identify), id);
      }
    }
  }

  // ----- the order of callables -----

  predicate Concerns(program: Block, i: nat, id: Callable, computed: Computed, identify: Identify)
    requires i < |program|
  {
    && (Registers(program, i) || Unregisters(program, i))
    && EntryAt(program, i, computed, identify).Some?
    && EntryAt(program, i, computed, identify).value.id == id
  }

  /** The call that added a callable, if it is registered after n statements. */
  function AddedAt(program: Block, n: nat, id: Callable, computed: Computed, identify: Identify): (k: Option<nat>)
    requires n <= |program|
    ensures k.Some? ==> k.value < n && Registers(program, k.value)
  {
    if n == 0 then None
    else
      var before := AddedAt(program, n - 1, id, computed, identify);
      if !Concerns(program, n - 1, id, computed, identify) then before
      else if Unregisters(program, n - 1) then None
      else if before.Some? then before
      else Some(n - 1)
  }

  lemma {:induction false} AddedIsKnown(program: Block, n: nat, id: Callable, computed: Computed, identify: Identify)
    requires n <= |program|
    ensures AddedAt(program, n, id, computed, identify).Some? <==> Known(program, n, id, computed, identify)
  {
    hide EntryAt, CalleeAt, REGISTER, UNREGISTER;
    if n > 0 {
      AddedIsKnown(program, n - 1, id, computed, identify);
      NotBoth(program, n - 1);
    }
  }

  /** Where two registrations put their callables: prepended ones come first, the latest in
      front; appended ones follow in the order of their calls. */
  predicate Ahead(program: Block, a: nat, b: nat)
    requires a < |program| && b < |program| && IsCall(program[a]) && IsCall(program[b])
  {
    if Prepends(program[a]) then !Prepends(program[b]) || a > b else !Prepends(program[b]) && a < b
  }

  ghost predicate PlacedAt(program: Block, n: nat, e: Entry, computed: Computed, identify: Identify)
    requires n <= |program|
  {
    var a := AddedAt(program, n, e.id, computed, identify);
    a.Some? && EntryAt(program, a.value, computed, identify) == Some(e)
  }

  ghost predicate Before(program: Block, n: nat, e: Entry, e': Entry, computed: Computed, identify: Identify)
    requires n <= |program|
    requires PlacedAt(program, n, e, computed, identify) && PlacedAt(program, n, e', computed, identify)
  {
    Ahead(program, AddedAt(program, n, e.id, computed, identify).value,
      AddedAt(program, n, e'.id, computed, identify).value)
  }

  ghost predicate Ordered(program: Block, n: nat, queue: seq<Entry>, computed: Computed, identify: Identify)
    requires n <= |program|
  {
    && (forall e :: e in queue ==> PlacedAt(program, n, e, computed, identify))
    && (forall j, k :: 0 <= j < k < |queue| ==> Before(program, n, queue[j], queue[k], computed, identify))
  }

  /** The queue lists the registered callables in that order. */
  lemma {:induction false} QueueIsOrdered(program: Block, n: nat, computed: Computed, identify: Identify)
    requires n <= |program|
    ensures Ordered(program, n, CallablesAt(program, n, computed, identify), computed, identify)
  {
    assert Ordered(program, 0, CallablesAt(program, 0, computed, identify), computed, identify);
    hide Ordered, CallablesAt, Registers, Unregisters;
    if n > 0 {
      QueueIsOrdered(program, n - 1, computed, identify);
      if Registers(program, n - 1) {
        RegisteringOrders(program, n - 1, computed, identify);
      } else if Unregisters(program, n - 1) {
        UnregisteringOrders(program, n - 1, computed, identify);
      } else {
        OtherOrders(program, n - 1, computed, identify);
      }
    }
  }

  lemma OtherOrders(program: Block, i: nat, computed: Computed, identify: Identify)
    requires i < |program| && !Registers(program, i) && !Unregisters(program, i)
    requires Ordered(program, i, CallablesAt(program, i, computed, identify), computed, identify)
    ensures Ordered(program, i + 1, CallablesAt(program, i + 1, computed, identify), computed, identify)
  {
    var queue := CallablesAt(program, i, computed, identify);
    assert CallablesAt(program, i + 1, computed, identify) == queue;
    hide CallablesAt, EntryAt, CalleeAt, Registers, Unregisters;
    forall e | e in queue
      ensures AddedAt(program, i + 1, e.id, computed, identify) == AddedAt(program, i, e.id, computed, identify)
    {
    }
    SameOrder(program, i, queue, computed, identify);
  }

  /** Entries whose calls stay the same stay in order. */
  lemma SameOrder(program: Block, i: nat, queue: seq<Entry>, computed: Computed, identify: Identify)
    requires i < |program| && Ordered(program, i, queue, computed, identify)
    requires forall e :: e in queue ==>
               AddedAt(program, i + 1, e.id, computed, identify) == AddedAt(program, i, e.id, computed, identify)
    ensures Ordered(program, i + 1, queue, computed, identify)
  {
    hide AddedAt, EntryAt, Ahead;
    forall e | e in queue ensures PlacedAt(program, i + 1, e, computed, identify) {
      assert PlacedAt(program, i, e, computed, identify);
    }
    forall j, k | 0 <= j < k < |queue|
      ensures PlacedAt(program, i + 1, queue[j], computed, identify)
              && PlacedAt(program, i + 1, queue[k], computed, identify)
              && Before(program, i + 1, queue[j], queue[k], computed, identify)
    {
      assert queue[j] in queue && queue[k] in queue;
      assert PlacedAt(program, i, queue[j], computed, identify) && PlacedAt(program, i, queue[k], computed, identify);
      assert Before(program, i, queue[j], queue[k], computed, identify);
    }
  }

  lemma WithoutIsOrdered(program: Block, n: nat, queue: seq<Entry>, j: nat, computed: Computed, identify: Identify)
    requires n <= |program| && j < |queue| && Ordered(program, n, queue, computed, identify)
    ensures Ordered(program, n, Without(queue, j), computed, identify)
  {
    hide PlacedAt, Before;
    var rest := Without(queue, j);
    assert forall k :: 0 <= k < |rest| ==> rest[k] == queue[if k < j then k else k + 1];
    forall e | e in rest ensures e in queue {
    }
  }

  lemma UnregisteringOrders(program: Block, i: nat, computed: Computed, identify: Identify)
    requires i < |program| && Unregisters(program, i)
    requires Ordered(program, i, CallablesAt(program, i, computed, identify), computed, identify)
    ensures Ordered(program, i + 1, CallablesAt(program, i + 1, computed, identify), computed, identify)
  {
    var queue, entry := CallablesAt(program, i, computed, identify), EntryAt(program, i, computed, identify);
    var next := Dequeued(queue, entry);
    NotBoth(program, i);
    assert CallablesAt(program, i + 1, computed, identify) == next;
    OthersStay(program, i, computed, identify);
    hide CallablesAt, EntryAt, CalleeAt, AddedAt, Ordered, Registers, Unregisters;
    if next != queue {
      WithoutIsOrdered(program, i, queue, IndexOf(queue, entry.value.id).value, computed, identify);
    }
    SameOrder(program, i, next, computed, identify);
  }

  /** Unregistering leaves the other callables where they are. */
  lemma OthersStay(program: Block, i: nat, computed: Computed, identify: Identify)
    requires i < |program| && Unregisters(program, i)
    ensures forall e ::
            e in Dequeued(CallablesAt(program, i, computed, identify), EntryAt(program, i, computed, identify)) ==>
              AddedAt(program, i + 1, e.id, computed, identify) == AddedAt(program, i, e.id, computed, identify)
  {
    var queue, entry := CallablesAt(program, i, computed, identify), EntryAt(program, i, computed, identify);
    var next := Dequeued(queue, entry);
    forall e | e in next ensures !Concerns(program, i, e.id, computed, identify) {
      KnownExact(program, i, e.id, computed, identify);
      hide CallablesAt, EntryAt, CalleeAt, Known;
      DequeuedKeeps(queue, entry, e.id);
    }
  }

  lemma RegisteringOrders(program: Block, i: nat, computed: Computed, identify: Identify)
    requires i < |program| && Registers(program, i)
    requires Ordered(program, i, CallablesAt(program, i, computed, identify), computed, identify)
    ensures Ordered(program, i + 1, CallablesAt(program, i + 1, computed, identify), computed, identify)
  {
    var queue, entry := CallablesAt(program, i, computed, identify), EntryAt(program, i, computed, identify);
    var prepend := Prepends(program[i]);
    assert CallablesAt(program, i + 1, computed, identify) == Enqueued(queue, entry, prepend);
    KnownStay(program, i, computed, identify);
    hide CallablesAt, EntryAt, CalleeAt, Prepends, Unregisters, Registers;
    SameOrder(program, i, queue, computed, identify);
    if entry.Some? && IndexOf(queue, entry.value.id).None? {
      hide Ordered, IndexOf, AddedAt;
      NewIsOrdered(program, i, queue, entry.value, computed, identify);
    }
  }

  /** Registering leaves the callables that are registered already where they are. */
  lemma KnownStay(program: Block, i: nat, computed: Computed, identify: Identify)
    requires i < |program| && Registers(program, i)
    ensures forall e :: e in CallablesAt(program, i, computed, identify) ==>
              AddedAt(program, i + 1, e.id, computed, identify) == AddedAt(program, i, e.id, computed, identify)
  {
    NotBoth(program, i);
    forall e | e in CallablesAt(program, i, computed, identify)
      ensures AddedAt(program, i, e.id, computed, identify).Some?
    {
      KnownExact(program, i, e.id, computed, identify);
      AddedIsKnown(program, i, e.id, computed, identify);
    }
    hide CallablesAt, EntryAt, CalleeAt;
  }

  lemma FrontIsOrdered(program: Block, n: nat, e: Entry, queue: seq<Entry>, computed: Computed, identify: Identify)
    requires n <= |program| && Ordered(program, n, queue, computed, identify)
             && PlacedAt(program, n, e, computed, identify)
    requires forall e' :: e' in queue ==> Before(program, n, e, e', computed, identify)
    ensures Ordered(program, n, [e] + queue, computed, identify)
  {
    hide PlacedAt, Before;
    var next := [e] + queue;
    assert forall e' :: e' in next ==> e' == e || e' in queue;
    assert forall k :: 0 < k < |next| ==> next[k] == queue[k - 1] && next[k] in queue;
  }

  lemma BackIsOrdered(program: Block, n: nat, e: Entry, queue: seq<Entry>, computed: Computed, identify: Identify)
    requires n <= |program| && Ordered(program, n, queue, computed, identify)
             && PlacedAt(program, n, e, computed, identify)
    requires forall e' :: e' in queue ==> Before(program, n, e', e, computed, identify)
    ensures Ordered(program, n, queue + [e], computed, identify)
  {
    hide PlacedAt, Before;
    var next := queue + [e];
    assert forall e' :: e' in next ==> e' == e || e' in queue;
    assert forall k :: 0 <= k < |queue| ==> next[k] == queue[k] && next[k] in queue;
  }

  lemma NewIsPlaced(program: Block, i: nat, e: Entry, computed: Computed, identify: Identify)
    requires i < |program| && Registers(program, i) && EntryAt(program, i, computed, identify) == Some(e)
    requires IndexOf(CallablesAt(program, i, computed, identify), e.id).None?
    ensures AddedAt(program, i + 1, e.id, computed, identify) == Some(i)
    ensures PlacedAt(program, i + 1, e, computed, identify)
  {
    KnownExact(program, i, e.id, computed, identify);
    AddedIsKnown(program, i, e.id, computed, identify);
    NotBoth(program, i);
    hide EntryAt, CallablesAt, CalleeAt, IndexOf, Known;
  }

  /** A callable added by the i-th statement comes first or last. */
  lemma NewIsOrdered(program: Block, i: nat, queue: seq<Entry>, e: Entry, computed: Computed, identify: Identify)
    requires i < |program| && Registers(program, i) && EntryAt(program, i, computed, identify) == Some(e)
    requires queue == CallablesAt(program, i, computed, identify) && IndexOf(queue, e.id).None?
    requires Ordered(program, i + 1, queue, computed, identify)
    ensures Ordered(program, i + 1, if Prepends(program[i]) then [e] + queue else queue + [e], computed, identify)
  {
    NewIsPlaced(program, i, e, computed, identify);
    KnownStay(program, i, computed, identify);
    hide AddedAt, EntryAt, CallablesAt, CalleeAt, Prepends, Known, IndexOf;
    forall e' | e' in queue
      ensures PlacedAt(program, i + 1, e', computed, identify)
      ensures if Prepends(program[i]) then Before(program, i + 1, e, e', computed, identify)
              else Before(program, i + 1, e', e, computed, identify)
    {
      assert AddedAt(program, i + 1, e'.id, computed, identify) == AddedAt(program, i, e'.id, computed, identify);
    }
    hide Ordered, Before;
    if Prepends(program[i]) {
      FrontIsOrdered(program, i + 1, e, queue, computed, identify);
    } else {
      BackIsOrdered(program, i + 1, e, queue, computed, identify);
    }
  }
}
