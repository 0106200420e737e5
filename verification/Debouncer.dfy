/**
 The watch debouncer and the EndpointSlice cache it feeds: bursts of events of one
 type are merged, and the cache ends up exactly as if nothing had been merged.
 */
module Debouncer {
  import opened Coalescing
  import opened Text

  datatype Kind = Added | Modified | Deleted | Bookmark

  datatype Endpoint = Endpoint(
    addresses: seq<string>, serving: Option<bool>, ready: Option<bool>, node: Option<string>, hostname: Option<string>)

  datatype Slice = Slice(name: string, endpoints: seq<Endpoint>)

  type Event = Item<Kind, Slice>

  // ---- One object's worker -------------------------------------------------------------

  /** `received` and `output` are histories; `stopped` is the worker's own stop channel. */
  datatype Worker = Worker(last: Option<Event>, received: seq<Event>, output: seq<Event>, stopped: bool, exited: bool)
  {
    function Pending(): seq<Event> { if last.Some? then [last.value] else [] }
  }

  /** What the select statement picks. */
  datatype Choice = Arrive(event: Event) | Tick | Done

  function Next(w: Worker, choice: Choice): Worker {
    if w.exited then w
    else match choice
      case Arrive(e) =>
        w.(received := w.received + [e], last := Some(e),
           output := if w.last.Some? && w.last.value.tag != e.tag then w.output + [w.last.value] else w.output)
      case Tick =>
        w.(last := None, output := w.output + w.Pending(),
           stopped := w.stopped || (w.last.Some? && w.last.value.tag == Deleted))
      case Done => w.(last := None, output := w.output + w.Pending(), exited := true)
  }

  function Fresh(): Worker { Worker(None, [], [], false, false) }

  function Run(choices: seq<Choice>): Worker
    decreases |choices|
  {
    if choices == [] then Fresh() else Next(Run(choices[..|choices| - 1]), choices[|choices| - 1])
  }

  /** Output and pending event together keep the received events, minus directly superseded ones. */
  ghost predicate Faithful(w: Worker)
  {
    Coalesced(w.received, w.output + w.Pending()) && (w.exited ==> w.last.None?)
  }

  lemma FaithfulNext(w: Worker, choice: Choice)
    requires Faithful(w)
    ensures Faithful(Next(w, choice))
  {
    var w' := Next(w, choice);
    if choice.Arrive? && !w.exited {
      var e, sofar := choice.event, w.output + w.Pending();
      if w.last.Some? && w.last.value.tag == e.tag {
        CoalescedReplace(w.received, sofar, e);
        assert sofar[..|sofar| - 1] + [e] == w'.output + w'.Pending();
      } else {
        CoalescedAppend(w.received, sofar, e);
        assert sofar + [e] == w'.output + w'.Pending();
      }
    } else {
      assert w'.output + w'.Pending() == w.output + w.Pending();
    }
  }

  /** For every interleaving of arrivals, ticks and stop the worker loses only directly superseded events. */
  lemma {:induction false} WorkerFaithful(choices: seq<Choice>)
    ensures Faithful(Run(choices))
    decreases |choices|
  {
    if choices == [] {
      CoalescedNothing<Kind, Slice>();
      var none: seq<Event> := [];
      assert none + none == none;
    } else {
      WorkerFaithful(choices[..|choices| - 1]);
      FaithfulNext(Run(choices[..|choices| - 1]), choices[|choices| - 1]);
    }
  }

  /** The events that arrived before the worker was told to leave. */
  function Arrived(choices: seq<Choice>): seq<Event>
    decreases |choices|
  {
    if choices == [] then []
    else
      var before, last := choices[..|choices| - 1], choices[|choices| - 1];
      Arrived(before) + if last.Arrive? && Done !in before then [last.event] else []
  }

  /** No arrival is ignored. */
  lemma {:induction false} ReceivedExactly(choices: seq<Choice>)
    ensures Run(choices).received == Arrived(choices)
    ensures Run(choices).exited <==> Done in choices
    decreases |choices|
  {
    if choices == [] {
    } else {
      ReceivedExactly(choices[..|choices| - 1]);
      assert choices == choices[..|choices| - 1] + [choices[|choices| - 1]];
    }
  }

  /** A tick, like the end of the context, sends what is held back: everything has gone out, up to the newest arrival. */
  lemma TickDelivers(choices: seq<Choice>, last: Choice)
    requires Done !in choices && !last.Arrive?
    ensures var arrived, output := Arrived(choices), Run(choices + [last]).output;
            Coalesced(arrived, output) && (arrived != [] ==> output != [] && output[|output| - 1] == arrived[|arrived| - 1])
  {
    ReceivedExactly(choices);
    WorkerFaithful(choices);
    assert (choices + [last])[..|choices|] == choices;
    NewestKept(Arrived(choices), Run(choices + [last]).output);
  }

  lemma DistinctAppend(events: seq<Event>, e: Event)
    requires DistinctNeighbours(events) && (events == [] || events[|events| - 1].tag != e.tag)
    ensures DistinctNeighbours(events + [e])
  {
    var longer := events + [e];
    forall i, j | 0 <= i && j == i + 1 && j < |longer| ensures longer[i].tag != longer[j].tag {
      assert longer[i] == events[i];
      assert j < |events| ==> longer[j] == events[j];
    }
  }

  lemma DistinctReplace(events: seq<Event>, e: Event)
    requires DistinctNeighbours(events) && events != [] && events[|events| - 1].tag == e.tag
    ensures DistinctNeighbours(events[..|events| - 1] + [e])
  {
    var changed := events[..|events| - 1] + [e];
    forall i, j | 0 <= i && j == i + 1 && j < |changed| ensures changed[i].tag != changed[j].tag {
      assert changed[i].tag == events[i].tag && changed[j].tag == events[j].tag;
    }
  }

  /** A burst that no tick interrupts is merged completely: neighbours of one type never survive. */
  lemma {:induction false} BurstMerged(choices: seq<Choice>)
    requires forall i :: 0 <= i < |choices| ==> !choices[i].Tick?
    ensures var w := Run(choices); DistinctNeighbours(w.output + w.Pending()) && (w.exited ==> w.last.None?)
    decreases |choices|
  {
    if choices == [] {
    } else {
      BurstMerged(choices[..|choices| - 1]);
      var w := Run(choices[..|choices| - 1]);
      var sofar, w' := w.output + w.Pending(), Run(choices);
      if choices[|choices| - 1].Arrive? && !w.exited {
        var e := choices[|choices| - 1].event;
        NothingOut(choices[..|choices| - 1]);
        if w.last.Some? && w.last.value.tag == e.tag {
          DistinctReplace(sofar, e);
          assert w'.output + w'.Pending() == sofar[..|sofar| - 1] + [e];
        } else {
          DistinctAppend(sofar, e);
          assert w'.output + w'.Pending() == sofar + [e];
        }
      } else {
        assert w'.output + w'.Pending() == sofar;
      }
    }
  }

  lemma {:induction false} NothingOut(choices: seq<Choice>)
    requires forall i :: 0 <= i < |choices| ==> !choices[i].Tick?
    ensures !Run(choices).exited && Run(choices).last.None? ==> Run(choices).output == []
    decreases |choices|
  {
    if choices == [] {
    } else {
      NothingOut(choices[..|choices| - 1]);
    }
  }

  /** The worker loop of the source, driven by the choices of its select statement. */
  method StartObject(choices: seq<Choice>) returns (output: seq<Event>, received: seq<Event>, stopped: bool)
    ensures var w := Run(choices + [Done]); output == w.output && received == w.received && stopped == w.stopped
    ensures Coalesced(received, output) && received == Arrived(choices)
  {
    ReceivedExactly(choices + [Done]);
    assert (choices + [Done])[..|choices|] == choices;
    output, received, stopped := [], [], false;
    var last: Option<Event> := None;
    var i := 0;
    while i < |choices|
      invariant 0 <= i <= |choices|
      invariant Run(choices[..i]) == Worker(last, received, output, stopped, false)
    {
      assert choices[..i + 1][..i] == choices[..i];
      match choices[i] {
        case Done => break;
        case Arrive(event) =>
          if last.Some? && last.value.tag != event.tag {
            output := output + [last.value];
          }
          last := Some(event);
          received := received + [event];
        case Tick =>
          if last.Some? {
            output := output + [last.value];
            if last.value.tag == Deleted {
              stopped := true;
            }
            last := None;
          }
      }
      i := i + 1;
    }
    if last.Some? {
      output := output + [last.value];
    }
    ghost var end := Worker(None, received, output, stopped, true);
    if i < |choices| {
      assert choices[..i + 1][..i] == choices[..i];
      assert Run(choices[..i + 1]) == end;
      ExitIsFinal(choices + [Done], i + 1);
      assert (choices + [Done])[..i + 1] == choices[..i + 1];
    } else {
      assert (choices + [Done])[..|choices|] == choices == choices[..i];
      assert Run(choices + [Done]) == end;
    }
    WorkerFaithful(choices + [Done]);
    assert output + end.Pending() == output;
  }

  lemma {:induction false} ExitIsFinal(choices: seq<Choice>, i: nat)
    requires i <= |choices| && Run(choices[..i]).exited
    ensures Run(choices) == Run(choices[..i])
    decreases |choices| - i
  {
    if i < |choices| {
      assert choices[..i + 1][..i] == choices[..i];
      ExitIsFinal(choices, i + 1);
    } else {
      assert choices[..i] == choices;
    }
  }

  // ---- The cache ---------------------------------------------------------------------------

  type Cache = map<string, Slice>

  /** Added and Modified events load the slice, Deleted events remove it. */
  function Apply(cache: Cache, e: Event): Cache {
    match e.tag
    case Added => cache[e.body.name := e.body]
    case Modified => cache[e.body.name := e.body]
    case Deleted => cache - {e.body.name}
    case Bookmark => cache
  }

  function Fold(cache: Cache, events: seq<Event>): Cache
    decreases |events|
  {
    if events == [] then cache else Fold(Apply(cache, events[0]), events[1..])
  }

  /** The events of one object. */
  function Only(events: seq<Event>, name: string): seq<Event> {
    if events == [] then []
    else if events[0].body.name == name then [events[0]] + Only(events[1..], name)
    else Only(events[1..], name)
  }

  ghost predicate AllNamed(events: seq<Event>, name: string)
  {
    forall i :: 0 <= i < |events| ==> events[i].body.name == name
  }

  lemma {:induction false} OnlyNamed(events: seq<Event>, name: string)
    ensures AllNamed(Only(events, name), name)
  {
    if events == [] {
    } else {
      OnlyNamed(events[1..], name);
    }
  }

  function Lookup(cache: Cache, name: string): Option<Slice> {
    if name in cache then Some(cache[name]) else None
  }

  /** The newest event of an object that says anything about it. */
  function Newest(events: seq<Event>, name: string): Option<Event>
    decreases |events|
  {
    if events == [] then None
    else
      var last := events[|events| - 1];
      if last.body.name == name && last.tag != Bookmark then Some(last) else Newest(events[..|events| - 1], name)
  }

  /** The cache holds of every object what its newest event says: the slice as it came, or nothing once it is deleted. */
  lemma {:induction false} CacheHoldsNewest(cache: Cache, events: seq<Event>, name: string)
    ensures Lookup(Fold(cache, events), name)
            == match Newest(events, name)
               case None => Lookup(cache, name)
               case Some(e) => if e.tag == Deleted then None else Some(e.body)
    decreases |events|
  {
    if events == [] {
    } else {
      var shorter, last := events[..|events| - 1], events[|events| - 1];
      CacheHoldsNewest(cache, shorter, name);
      assert events == shorter + [last];
      FoldAppend(cache, shorter, [last]);
      FoldOne(Fold(cache, shorter), last);
    }
  }

  /** What the cache says of one object depends on that object's events alone. */
  lemma {:induction false} FoldIsLocal(cache: Cache, other: Cache, events: seq<Event>, name: string)
    requires Lookup(cache, name) == Lookup(other, name)
    ensures Lookup(Fold(cache, events), name) == Lookup(Fold(other, Only(events, name)), name)
    decreases |events|
  {
    if events == [] {
    } else {
      var e := events[0];
      if e.body.name == name {
        FoldIsLocal(Apply(cache, e), Apply(other, e), events[1..], name);
        assert Only(events, name)[0] == e && Only(events, name)[1..] == Only(events[1..], name);
      } else {
        FoldIsLocal(Apply(cache, e), other, events[1..], name);
      }
    }
  }

  lemma KeptTail(input: seq<Event>, output: seq<Event>, keep: seq<nat>) returns (rest: seq<nat>)
    requires KeptBy(input, output, keep) && keep != [] && keep[0] == 0
    ensures KeptBy(input[1..], output[1..], rest)
  {
    rest := seq(|keep| - 1, i requires 0 <= i < |keep| - 1 => assert keep[0] < keep[i + 1]; keep[i + 1] - 1);
    forall i | 0 < i < |keep| ensures keep[i] - 1 in rest {
      assert rest[i - 1] == keep[i] - 1;
    }
    forall n | 0 <= n < |input[1..]| && n !in rest ensures Superseded(input[1..], n) {
      assert n + 1 !in keep;
      assert Superseded(input, n + 1);
    }
  }

  lemma KeptDrop(input: seq<Event>, output: seq<Event>, keep: seq<nat>) returns (rest: seq<nat>)
    requires KeptBy(input, output, keep) && input != [] && 0 !in keep
    ensures KeptBy(input[1..], output, rest)
  {
    rest := seq(|keep|, i requires 0 <= i < |keep| => assert keep[i] in keep; keep[i] - 1);
    forall i | 0 <= i < |keep| ensures keep[i] - 1 in rest {
      assert rest[i] == keep[i] - 1;
    }
    forall n | 0 <= n < |input[1..]| && n !in rest ensures Superseded(input[1..], n) {
      assert n + 1 !in keep;
      assert Superseded(input, n + 1);
    }
  }

  lemma {:induction false} FoldKept(cache: Cache, input: seq<Event>, output: seq<Event>, keep: seq<nat>, name: string)
    requires KeptBy(input, output, keep) && AllNamed(input, name)
    ensures Fold(cache, output) == Fold(cache, input)
    decreases |input|
  {
    if input == [] {
      NewestKept(input, output);
    } else if 0 in keep {
      assert forall i :: 0 < i < |keep| ==> keep[0] < keep[i];
      var rest := KeptTail(input, output, keep);
      FoldKept(Apply(cache, input[0]), input[1..], output[1..], rest, name);
    } else {
      var rest := KeptDrop(input, output, keep);
      FoldKept(cache, input[1..], output, rest, name);
      assert Superseded(input, 0);
      assert input[1..][0] == input[1];
      assert Apply(Apply(cache, input[0]), input[1]) == Apply(cache, input[1]);
    }
  }

  /** Merging one object's events does not change the cache they lead to. */
  lemma CoalescingPreservesCache(cache: Cache, input: seq<Event>, output: seq<Event>, name: string)
    requires Coalesced(input, output) && AllNamed(input, name)
    ensures Fold(cache, output) == Fold(cache, input)
  {
    var keep: seq<nat> :| KeptBy(input, output, keep);
    FoldKept(cache, input, output, keep, name);
  }

  /**
   The debouncer preserves meaning: however the outputs of the per-object workers
   are interleaved, the cache after the debounced stream equals the cache after
   the raw one.
   */
  lemma DebouncingPreservesCache(cache: Cache, raw: seq<Event>, debounced: seq<Event>)
    requires forall name :: Coalesced(Only(raw, name), Only(debounced, name))
    ensures Fold(cache, debounced) == Fold(cache, raw)
  {
    var a, b := Fold(cache, raw), Fold(cache, debounced);
    forall name ensures Lookup(a, name) == Lookup(b, name) {
      FoldIsLocal(cache, cache, raw, name);
      FoldIsLocal(cache, cache, debounced, name);
      OnlyNamed(raw, name);
      CoalescingPreservesCache(cache, Only(raw, name), Only(debounced, name), name);
    }
    SameLookups(a, b);
  }

  lemma SameLookups(a: Cache, b: Cache)
    requires forall name :: Lookup(a, name) == Lookup(b, name)
    ensures a == b
  {
    assert forall name :: name in a <==> Lookup(a, name).Some?;
    assert forall name :: name in b <==> Lookup(b, name).Some?;
    forall name | name in a ensures name in b && a[name] == b[name] {
      assert Lookup(a, name) == Lookup(b, name);
    }
    forall name | name in b ensures name in a {
      assert Lookup(a, name) == Lookup(b, name);
    }
  }

  // ---- Dispatch ---------------------------------------------------------------------------------

  /** An arriving event; `stops` tells whether its worker, once it has sent out a Deleted event, ends before the next one. */
  datatype Arrival = Arrival(event: Event, stops: bool)

  function Raw(arrivals: seq<Arrival>): seq<Event> {
    if arrivals == [] then [] else [arrivals[0].event] + Raw(arrivals[1..])
  }

  /** The objects with a worker after an arrival. */
  function Known(known: set<string>, a: Arrival): set<string> {
    if a.event.tag != Deleted then known + {a.event.body.name}
    else if a.stops then known - {a.event.body.name} else known
  }

  /** The dispatch loop: every event goes to the worker of its object, but a Deleted event does not start one. */
  function Dispatch(known: set<string>, arrivals: seq<Arrival>): seq<Event>
    decreases |arrivals|
  {
    if arrivals == [] then []
    else
      var e := arrivals[0].event;
      var rest := Dispatch(Known(known, arrivals[0]), arrivals[1..]);
      if e.tag == Deleted && e.body.name !in known then rest else [e] + rest
  }

  /** Dropping the Deleted events of objects without worker leaves the cache as it would be, while every cached object has a worker. */
  lemma {:induction false} DispatchPreservesCache(cache: Cache, known: set<string>, arrivals: seq<Arrival>)
    requires cache.Keys <= known
    ensures Fold(cache, Dispatch(known, arrivals)) == Fold(cache, Raw(arrivals))
    decreases |arrivals|
  {
    if arrivals == [] {
      assert Dispatch(known, arrivals) == Raw(arrivals);
    } else {
      var e, rest := arrivals[0].event, Dispatch(Known(known, arrivals[0]), arrivals[1..]);
      DispatchPreservesCache(Apply(cache, e), Known(known, arrivals[0]), arrivals[1..]);
      assert Raw(arrivals)[1..] == Raw(arrivals[1..]) && ([e] + rest)[1..] == rest;
      if e.tag == Deleted && e.body.name !in known {
        assert cache - {e.body.name} == cache;
      }
    }
  }

  /** That is exact: for every other cache there are arrivals whose dropped event was needed. */
  lemma DispatchExact(cache: Cache, known: set<string>)
    ensures cache.Keys <= known <==> forall arrivals :: Fold(cache, Dispatch(known, arrivals)) == Fold(cache, Raw(arrivals))
  {
    forall arrivals | cache.Keys <= known ensures Fold(cache, Dispatch(known, arrivals)) == Fold(cache, Raw(arrivals)) {
      DispatchPreservesCache(cache, known, arrivals);
    }
    if name :| name in cache && name !in known {
      var slice := cache[name].(name := name);
      var arrivals := [Arrival(Item(Deleted, slice), true)];
      assert arrivals[1..] == [] && Raw(arrivals) == [arrivals[0].event] && Raw(arrivals)[1..] == [];
      assert Dispatch(known, arrivals) == [];
      assert Fold(cache, Raw(arrivals)) == cache - {name};
      assert name !in cache - {name};
    }
  }

  // ---- The whole pipeline -----------------------------------------------------------------------

  /** Dispatch loop and workers together: `raw` is what arrived, `output` what all workers have sent, in order. */
  datatype Pipeline = Pipeline(workers: map<string, Worker>, closed: bool, raw: seq<Event>, output: seq<Event>)

  /** An arrival, the tick of a worker, the end of the context, and a worker that sees it. */
  datatype Move = Receive(event: Event) | TickOf(name: string) | Close | Leave(name: string)

  /** What a worker sends in one step. */
  function Emits(w: Worker, choice: Choice): seq<Event> {
    if w.exited then []
    else if choice.Arrive? then (if w.last.Some? && w.last.value.tag != choice.event.tag then [w.last.value] else [])
    else w.Pending()
  }

  lemma EmitsExactly(w: Worker, choice: Choice)
    ensures Next(w, choice).output == w.output + Emits(w, choice)
  {
  }

  /** One step of a worker; one that sent out a Deleted event, or left, is forgotten. */
  function Feed(p: Pipeline, name: string, w: Worker, choice: Choice): Pipeline {
    var w' := Next(w, choice);
    p.(output := p.output + Emits(w, choice), workers := if w'.stopped || w'.exited then p.workers - {name} else p.workers[name := w'])
  }

  function Advance(p: Pipeline, move: Move): Pipeline {
    match move
    case Receive(e) =>
      if p.closed then p
      else
        var received, name := p.(raw := p.raw + [e]), e.body.name;
        if name in p.workers then Feed(received, name, p.workers[name], Arrive(e))
        else if e.tag == Deleted then received
        else Feed(received, name, Fresh(), Arrive(e))
    case TickOf(name) => if name in p.workers then Feed(p, name, p.workers[name], Tick) else p
    case Close => p.(closed := true)
    case Leave(name) => if p.closed && name in p.workers then Feed(p, name, p.workers[name], Done) else p
  }

  /** A pipeline with a fresh worker for every known object. */
  function Open(known: set<string>): Pipeline {
    Pipeline(map name | name in known :: Fresh(), false, [], [])
  }

  function Flow(known: set<string>, moves: seq<Move>): Pipeline
    decreases |moves|
  {
    if moves == [] then Open(known) else Advance(Flow(known, moves[..|moves| - 1]), moves[|moves| - 1])
  }

  function PendingOf(p: Pipeline, name: string): seq<Event> {
    if name in p.workers then p.workers[name].Pending() else []
  }

  /** Nothing is held back. */
  ghost predicate Flushed(p: Pipeline)
  {
    forall name :: name in p.workers ==> p.workers[name].last.None?
  }

  lemma {:induction false} FoldAppend(cache: Cache, events: seq<Event>, more: seq<Event>)
    ensures Fold(cache, events + more) == Fold(Fold(cache, events), more)
    decreases |events|
  {
    if events == [] {
      assert events + more == more;
    } else {
      assert (events + more)[0] == events[0] && (events + more)[1..] == events[1..] + more;
      FoldAppend(Apply(cache, events[0]), events[1..], more);
    }
  }

  lemma FoldOne(cache: Cache, e: Event)
    ensures Fold(cache, [e]) == Apply(cache, e) && Fold(cache, []) == cache
  {
    assert [e][1..] == [];
  }

  /** A worker holds back only an event of its own object, and runs. */
  ghost predicate WorkersOk(p: Pipeline)
  {
    forall name :: name in p.workers ==>
      var w := p.workers[name];
      !w.exited && !w.stopped && (w.last.Some? ==> w.last.value.body.name == name)
  }

  /** Object by object: what was sent, followed by what is held back, says the same as what arrived. */
  ghost predicate SameMeaning(cache: Cache, p: Pipeline, name: string)
  {
    Lookup(Fold(Fold(cache, p.output), PendingOf(p, name)), name) == Lookup(Fold(cache, p.raw), name)
  }

  /** Every object that exists by what arrived has a worker. */
  ghost predicate Attended(cache: Cache, p: Pipeline)
  {
    Fold(cache, p.raw).Keys <= p.workers.Keys
  }

  ghost predicate PipelineOk(cache: Cache, p: Pipeline)
  {
    WorkersOk(p) && (!p.closed ==> Attended(cache, p)) && forall name :: SameMeaning(cache, p, name)
  }

  /** A worker's step keeps the meaning of its own object. */
  lemma OwnMeaning(sofar: Cache, w: Worker, choice: Choice, name: string)
    requires !w.exited && (w.last.Some? ==> w.last.value.body.name == name) && (choice.Arrive? ==> choice.event.body.name == name)
    ensures var w' := Next(w, choice);
            Lookup(Fold(Fold(sofar, Emits(w, choice)), w'.Pending()), name)
            == Lookup(Fold(Fold(sofar, w.Pending()), if choice.Arrive? then [choice.event] else []), name)
  {
    if w.last.Some? {
      FoldOne(sofar, w.last.value);
      if choice.Arrive? {
        FoldOne(sofar, choice.event);
        FoldOne(Apply(sofar, w.last.value), choice.event);
      } else {
        FoldOne(Apply(sofar, w.last.value), w.last.value);
      }
    } else if choice.Arrive? {
      FoldOne(sofar, choice.event);
    }
  }

  /** And does not touch the others. */
  lemma OthersMeaning(sofar: Cache, events: seq<Event>, name: string, held: seq<Event>, other: string)
    requires |events| <= 1 && |held| <= 1 && (events != [] ==> events[0].body.name == name) && name != other
    ensures Lookup(Fold(Fold(sofar, events), held), other) == Lookup(Fold(sofar, held), other)
  {
    if events != [] {
      assert events == [events[0]];
      FoldOne(sofar, events[0]);
      if held != [] {
        assert held == [held[0]];
        FoldOne(sofar, held[0]);
        FoldOne(Apply(sofar, events[0]), held[0]);
      }
    }
  }

  lemma FeedMeaning(cache: Cache, p: Pipeline, received: Pipeline, name: string, w: Worker, choice: Choice, other: string)
    requires SameMeaning(cache, p, other) && w.Pending() == PendingOf(p, name) && !w.exited && !w.stopped
    requires (w.last.Some? ==> w.last.value.body.name == name) && (choice.Arrive? ==> choice.event.body.name == name)
    requires received == p.(raw := p.raw + if choice.Arrive? then [choice.event] else [])
    ensures SameMeaning(cache, Feed(received, name, w, choice), other)
  {
    var p', w', more := Feed(received, name, w, choice), Next(w, choice), if choice.Arrive? then [choice.event] else [];
    var sofar, truth := Fold(cache, p.output), Fold(cache, p.raw);
    FoldAppend(cache, p.output, Emits(w, choice));
    FoldAppend(cache, p.raw, more);
    if other == name {
      OwnMeaning(sofar, w, choice, name);
      assert PendingOf(p', name) == w'.Pending();
      SameLater(Fold(sofar, w.Pending()), truth, more, name);
    } else {
      assert PendingOf(p', other) == PendingOf(p, other);
      OthersMeaning(sofar, Emits(w, choice), name, PendingOf(p, other), other);
      OthersMeaning(truth, more, name, [], other);
    }
  }

  /** Caches that agree on an object agree on it after one more event. */
  lemma SameLater(a: Cache, b: Cache, more: seq<Event>, name: string)
    requires Lookup(a, name) == Lookup(b, name) && |more| <= 1
    ensures Lookup(Fold(a, more), name) == Lookup(Fold(b, more), name)
  {
    if more != [] {
      assert more == [more[0]];
      FoldOne(a, more[0]);
      FoldOne(b, more[0]);
    }
  }

  lemma FeedOk(cache: Cache, p: Pipeline, received: Pipeline, name: string, w: Worker, choice: Choice)
    requires PipelineOk(cache, p) && w.Pending() == PendingOf(p, name) && !w.exited && !w.stopped
    requires (w.last.Some? ==> w.last.value.body.name == name) && (choice.Arrive? ==> choice.event.body.name == name)
    requires received == p.(raw := p.raw + if choice.Arrive? then [choice.event] else [])
    requires choice.Done? ==> p.closed
    ensures PipelineOk(cache, Feed(received, name, w, choice))
  {
    var p' := Feed(received, name, w, choice);
    forall other ensures SameMeaning(cache, p', other) {
      FeedMeaning(cache, p, received, name, w, choice, other);
    }
    if !p.closed {
      FeedAttended(cache, p, received, name, w, choice);
    }
  }

  /** A worker is forgotten only when its object is gone. */
  lemma FeedAttended(cache: Cache, p: Pipeline, received: Pipeline, name: string, w: Worker, choice: Choice)
    requires Attended(cache, p) && SameMeaning(cache, p, name) && w.Pending() == PendingOf(p, name) && !w.exited && !w.stopped
    requires (w.last.Some? ==> w.last.value.body.name == name) && (choice.Arrive? ==> choice.event.body.name == name)
    requires received == p.(raw := p.raw + if choice.Arrive? then [choice.event] else []) && !choice.Done?
    ensures Attended(cache, Feed(received, name, w, choice))
  {
    var p' := Feed(received, name, w, choice);
    if choice.Arrive? {
      FoldAppend(cache, p.raw, [choice.event]);
      FoldOne(Fold(cache, p.raw), choice.event);
    } else {
      assert p.raw + [] == p.raw;
      if w.last.Some? && w.last.value.tag == Deleted {
        FoldOne(Fold(cache, p.output), w.last.value);
        assert Lookup(Fold(cache, p.raw), name).None?;
      }
    }
  }

  lemma AdvanceOk(cache: Cache, p: Pipeline, move: Move)
    requires PipelineOk(cache, p)
    ensures PipelineOk(cache, Advance(p, move))
  {
    match move {
      case Receive(e) =>
        if !p.closed {
          ReceiveOk(cache, p, e);
        }
      case TickOf(name) =>
        if name in p.workers {
          assert p.raw + [] == p.raw;
          FeedOk(cache, p, p, name, p.workers[name], Tick);
        }
      case Close =>
        assert forall name :: SameMeaning(cache, p, name) ==> SameMeaning(cache, p.(closed := true), name);
      case Leave(name) =>
        if p.closed && name in p.workers {
          assert p.raw + [] == p.raw;
          FeedOk(cache, p, p, name, p.workers[name], Done);
        }
    }
  }

  lemma ReceiveOk(cache: Cache, p: Pipeline, e: Event)
    requires PipelineOk(cache, p) && !p.closed
    ensures PipelineOk(cache, Advance(p, Receive(e)))
  {
    var received, name := p.(raw := p.raw + [e]), e.body.name;
    if name in p.workers {
      FeedOk(cache, p, received, name, p.workers[name], Arrive(e));
    } else if e.tag == Deleted {
      FoldAppend(cache, p.raw, [e]);
      FoldOne(Fold(cache, p.raw), e);
      assert Fold(cache, p.raw) - {name} == Fold(cache, p.raw);
      forall other ensures SameMeaning(cache, received, other) {
        assert SameMeaning(cache, p, other) && PendingOf(received, other) == PendingOf(p, other);
      }
    } else {
      FeedOk(cache, p, received, name, Fresh(), Arrive(e));
    }
  }

  /**
   The debouncer preserves meaning, from arrival to cache: for every interleaving of
   arrivals, ticks, the end of the context and workers that leave, whenever nothing is
   held back the cache after the output is the cache after everything that arrived.
   */
  lemma PipelinePreservesCache(cache: Cache, known: set<string>, moves: seq<Move>)
    requires cache.Keys <= known && Flushed(Flow(known, moves))
    ensures Fold(cache, Flow(known, moves).output) == Fold(cache, Flow(known, moves).raw)
  {
    FlowOk(cache, known, moves);
    var p := Flow(known, moves);
    forall name ensures Lookup(Fold(cache, p.output), name) == Lookup(Fold(cache, p.raw), name) {
      assert SameMeaning(cache, p, name) && PendingOf(p, name) == [];
    }
    SameLookups(Fold(cache, p.output), Fold(cache, p.raw));
  }

  lemma {:induction false} FlowOk(cache: Cache, known: set<string>, moves: seq<Move>)
    requires cache.Keys <= known
    ensures PipelineOk(cache, Flow(known, moves))
    decreases |moves|
  {
    if moves == [] {
      assert forall name :: PendingOf(Open(known), name) == [];
    } else {
      FlowOk(cache, known, moves[..|moves| - 1]);
      AdvanceOk(cache, Flow(known, moves[..|moves| - 1]), moves[|moves| - 1]);
    }
  }

  /** The events that arrived before the context ended. */
  function Received(moves: seq<Move>): seq<Event>
    decreases |moves|
  {
    if moves == [] then []
    else
      var before, last := moves[..|moves| - 1], moves[|moves| - 1];
      Received(before) + if last.Receive? && Close !in before then [last.event] else []
  }

  lemma {:induction false} RawExactly(known: set<string>, moves: seq<Move>)
    ensures Flow(known, moves).raw == Received(moves)
    ensures Flow(known, moves).closed <==> Close in moves
    decreases |moves|
  {
    if moves == [] {
    } else {
      RawExactly(known, moves[..|moves| - 1]);
      assert moves == moves[..|moves| - 1] + [moves[|moves| - 1]];
    }
  }

  /** The objects whose workers hold something back. */
  ghost function Holding(p: Pipeline): set<string> {
    set name | name in p.workers && p.workers[name].last.Some?
  }

  /** The tick of a worker that holds an event back sends exactly that; a worker that sends a Deleted event so is forgotten. */
  lemma TickSends(p: Pipeline, name: string)
    requires WorkersOk(p) && name in p.workers && p.workers[name].last.Some?
    ensures var p', held := Advance(p, TickOf(name)), p.workers[name].last.value;
            && p'.output == p.output + [held] && p'.raw == p.raw && p'.closed == p.closed
            && (name in p'.workers <==> held.tag != Deleted) && p'.workers - {name} == p.workers - {name}
            && Holding(p') == Holding(p) - {name}
  {
    var p' := Advance(p, TickOf(name));
    assert forall other :: other != name ==> (other in p'.workers <==> other in p.workers);
    assert forall other :: other != name && other in p.workers ==> p'.workers[other] == p.workers[other];
  }

  /** Once the context has ended, a worker that leaves sends what it held back. */
  lemma LeaverSends(p: Pipeline, name: string)
    requires WorkersOk(p) && p.closed && name in p.workers
    ensures var p' := Advance(p, Leave(name));
            p'.output == p.output + PendingOf(p, name) && p'.workers == p.workers - {name} && p'.raw == p.raw
  {
  }

  /** Ticks bring everything out. */
  lemma {:induction false} TicksFlush(cache: Cache, known: set<string>, moves: seq<Move>) returns (longer: seq<Move>)
    requires cache.Keys <= known
    ensures Flushed(Flow(known, longer)) && Flow(known, longer).raw == Flow(known, moves).raw
    decreases |Holding(Flow(known, moves))|
  {
    var p := Flow(known, moves);
    if Holding(p) == {} {
      longer := moves;
      assert forall name :: name in p.workers && p.workers[name].last.Some? ==> name in Holding(p);
    } else {
      var name :| name in Holding(p);
      FlowOk(cache, known, moves);
      TickSends(p, name);
      var next := moves + [TickOf(name)];
      assert next[..|moves|] == moves;
      longer := TicksFlush(cache, known, next);
    }
  }

  /** However the pipeline got where it is, ticks alone bring the cache to what everything that arrived says. */
  lemma CacheCatchesUp(cache: Cache, known: set<string>, moves: seq<Move>) returns (longer: seq<Move>)
    requires cache.Keys <= known
    ensures Fold(cache, Flow(known, longer).output) == Fold(cache, Received(moves))
  {
    longer := TicksFlush(cache, known, moves);
    RawExactly(known, moves);
    PipelinePreservesCache(cache, known, longer);
  }

  // ---- The provider's own code -----------------------------------------------------------------

  /** A nil Serving condition defers to Ready, and a nil Ready counts as ready. */
  predicate IsServing(e: Endpoint) {
    if e.serving.Some? then e.serving.value else if e.ready.Some? then e.ready.value else true
  }

  /** The node name decides; the hostname only counts when there is no node name. */
  predicate IsLocal(e: Endpoint, id: string) {
    if e.node.Some? then e.node.value == id else e.hostname == Some(id)
  }

  class Endpointslices {
    var slices: Cache

    constructor ()
      ensures slices == map[]
    {
      slices := map[];
    }

    method LoadObject(slice: Slice)
      modifies this
      ensures slices == Apply(old(slices), Item(Added, slice)) == Apply(old(slices), Item(Modified, slice))
      ensures slice.name in slices && slices[slice.name] == slice && slices - {slice.name} == old(slices) - {slice.name}
    {
      slices := slices[slice.name := slice];
    }

    method DeleteObject(slice: Slice)
      modifies this
      ensures slices == Apply(old(slices), Item(Deleted, slice))
      ensures slice.name !in slices && slices == old(slices) - {slice.name}
    {
      slices := slices - {slice.name};
    }

    /** Every address of a serving endpoint in some cached slice, and no other. */
    method GetAllEndpoints() returns (result: seq<string>)
      ensures forall a :: a in result <==> exists n :: n in slices && a in Selected(slices[n].endpoints, None)
      ensures forall a :: a in result <==> exists n :: n in slices && Offers(slices[n].endpoints, None, a)
    {
      forall n, a | n in slices ensures a in Selected(slices[n].endpoints, None) <==> Offers(slices[n].endpoints, None, a) {
        SelectedExactly(slices[n].endpoints, None, a);
      }
      result := [];
      var todo := slices.Keys;
      while todo != {}
        invariant todo <= slices.Keys
        invariant forall a :: a in result <==> exists n :: n in slices && n !in todo && a in Selected(slices[n].endpoints, None)
        decreases todo
      {
        var name :| name in todo;
        var endpoints := slices[name].endpoints;
        ghost var before := result;
        for i := 0 to |endpoints|
          invariant result == before + Selected(endpoints[..i], None)
        {
          assert endpoints[..i + 1][..i] == endpoints[..i];
          if IsServing(endpoints[i]) {
            result := result + endpoints[i].addresses;
          }
        }
        assert endpoints[..|endpoints|] == endpoints;
        todo := todo - {name};
      }
    }

    /** Every address of a serving endpoint on the node, and no other. */
    method GetLocalEndpoints(id: string) returns (result: seq<string>)
      ensures forall a :: a in result <==> exists n :: n in slices && a in Selected(slices[n].endpoints, Some(id))
      ensures forall a :: a in result <==> exists n :: n in slices && Offers(slices[n].endpoints, Some(id), a)
    {
      forall n, a | n in slices ensures a in Selected(slices[n].endpoints, Some(id)) <==> Offers(slices[n].endpoints, Some(id), a) {
        SelectedExactly(slices[n].endpoints, Some(id), a);
      }
      result := [];
      var todo := slices.Keys;
      while todo != {}
        invariant todo <= slices.Keys
        invariant forall a :: a in result <==> exists n :: n in slices && n !in todo && a in Selected(slices[n].endpoints, Some(id))
        decreases todo
      {
        var name :| name in todo;
        var local := LocalOf(slices[name].endpoints, id);
        result := result + local;
        todo := todo - {name};
      }
    }

    static method LocalOf(endpoints: seq<Endpoint>, id: string) returns (local: seq<string>)
      ensures local == Selected(endpoints, Some(id))
    {
      local := [];
      for i := 0 to |endpoints|
        invariant local == Selected(endpoints[..i], Some(id))
      {
        var e := endpoints[i];
        assert endpoints[..i + 1][..i] == endpoints[..i];
        if !IsServing(e) {
          continue;
        }
        ghost var before := local;
        for j := 0 to |e.addresses|
          invariant local == before + if IsLocal(e, id) then e.addresses[..j] else []
        {
          if e.node.Some? && id == e.node.value {
            local := local + [e.addresses[j]];
            continue;
          }
          if e.node.None? && e.hostname.Some? && id == e.hostname.value {
            local := local + [e.addresses[j]];
          }
        }
        assert e.addresses[..|e.addresses|] == e.addresses;
      }
      assert endpoints[..|endpoints|] == endpoints;
    }
  }

  /** Some endpoint that serves, or that is ready or silent about it when it does not say whether it serves, has the address. */
  ghost predicate Offers(endpoints: seq<Endpoint>, id: Option<string>, address: string) {
    exists e :: e in endpoints && address in e.addresses
      && (e.serving == Some(true) || (e.serving.None? && e.ready != Some(false)))
      && (id.Some? ==> e.node == id || (e.node.None? && e.hostname == id))
  }

  lemma {:induction false} SelectedExactly(endpoints: seq<Endpoint>, id: Option<string>, address: string)
    ensures address in Selected(endpoints, id) <==> Offers(endpoints, id, address)
    decreases |endpoints|
  {
    if endpoints == [] {
    } else {
      var shorter, last := endpoints[..|endpoints| - 1], endpoints[|endpoints| - 1];
      SelectedExactly(shorter, id, address);
      assert forall e :: e in endpoints <==> e in shorter || e == last;
    }
  }

  /** The addresses of the serving endpoints, of all nodes or of one. */
  function Selected(endpoints: seq<Endpoint>, id: Option<string>): seq<string> {
    if endpoints == [] then []
    else
      var last := endpoints[|endpoints| - 1];
      Selected(endpoints[..|endpoints| - 1], id)
      + (if IsServing(last) && (id.Some? ==> IsLocal(last, id.value)) then last.addresses else [])
  }
}
