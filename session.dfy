/** One `getContacts` request: every requested kind of information is read on
    a worker, and each worker reports to a shared handler that records its
    result, and that hands the application either the merged contacts or the
    first error, each at most once. The workers' completions are modelled as
    a sequence of events in some order; what is handed to the application is
    recorded, in order, in the `posted` queue. */
module ContactFetch {
  import opened ContactModel
  import opened ContactMerge

  /** What a worker's read produced: its partial contacts, or the message of
      the exception it threw. */
  datatype Outcome = Loaded(contacts: map<int, Contact>) | Failed(message: string)

  /** A worker for `target` has finished with `outcome`. */
  datatype Completion = Completion(target: TargetInfo, outcome: Outcome)

  /** What is handed to the application: the merged contacts, or an error with
      a code and a message. */
  datatype Delivery = DeliveredSuccess(contacts: map<int, Contact>) | DeliveredError(code: string, message: string)

  /** The maps stored under `order`'s targets, in that order: the values of an
      insertion-ordered map. */
  function InOrder(results: map<TargetInfo, map<int, Contact>>, order: seq<TargetInfo>): (ms: seq<map<int, Contact>>)
    requires forall t :: t in order ==> t in results
    ensures |ms| == |order|
    ensures forall k :: 0 <= k < |order| ==> ms[k] == results[order[k]]
  {
    seq(|order|, k requires 0 <= k < |order| => results[order[k]])
  }

  lemma InOrderAppend(results: map<TargetInfo, map<int, Contact>>, order: seq<TargetInfo>,
                      t: TargetInfo, m: map<int, Contact>)
    requires forall u :: u in order ==> u in results
    requires t !in order
    ensures InOrder(results[t := m], order + [t]) == InOrder(results, order) + [m]
  {
    var r := results[t := m];
    assert forall k :: 0 <= k < |order| ==> (order + [t])[k] == order[k] != t;
  }

  /** The number of successes handed over. */
  function Successes(ds: seq<Delivery>): nat
  {
    if ds == [] then 0
    else Successes(ds[..|ds| - 1]) + (if ds[|ds| - 1].DeliveredSuccess? then 1 else 0)
  }

  /** The number of errors handed over. */
  function Errors(ds: seq<Delivery>): nat
  {
    if ds == [] then 0
    else Errors(ds[..|ds| - 1]) + (if ds[|ds| - 1].DeliveredError? then 1 else 0)
  }

  /** The state the workers of one request share: the two latches, the maps
      stored so far with the order in which their targets were first stored
      (the values of a `mutableMapOf` come in that order), and what has been
      queued for the application. */
  datatype Latch = Latch(signalledError: bool, signalledValue: bool,
                         results: map<TargetInfo, map<int, Contact>>, order: seq<TargetInfo>,
                         posted: seq<Delivery>)

  /** The state before any worker has reported. */
  const Fresh: Latch := Latch(false, false, map[], [], [])

  /** Every target in the order has a stored map. */
  ghost predicate OrderStored(l: Latch)
  {
    forall t :: t in l.order ==> t in l.results
  }

  /** The facts every reachable state keeps: the order lists the stored
      targets once each, only requested targets are stored, a success has
      been handed over only with every requested target stored and as many
      targets stored as were requested, and the
      queue holds the success, if any, first and the error, if any, last. */
  ghost predicate Consistent(requested: seq<TargetInfo>, l: Latch)
  {
    && Distinct(l.order)
    && (forall t :: t in l.results <==> t in l.order)
    && (forall t :: t in l.results ==> t in requested)
    && (l.signalledValue ==> |l.results| == |requested| && forall t :: t in requested ==> t in l.results)
    && |l.posted| == (if l.signalledValue then 1 else 0) + (if l.signalledError then 1 else 0)
    && (l.signalledValue ==> l.posted[0].DeliveredSuccess?)
    && (l.signalledError ==> l.posted[|l.posted| - 1].DeliveredError?)
  }

  /** `results[target] = action()`: the map is stored under `target`, and
      a target stored for the first time goes to the end of the order. */
  function Put(l: Latch, target: TargetInfo, contacts: map<int, Contact>): (r: Latch)
    ensures r.results.Keys == l.results.Keys + {target} && r.results[target] == contacts
    ensures forall t :: t in l.results && t != target ==> r.results[t] == l.results[t]
    ensures r.signalledError == l.signalledError && r.signalledValue == l.signalledValue && r.posted == l.posted
    ensures target in l.results ==> r.order == l.order
    ensures target !in l.results ==> r.order == l.order + [target]
    ensures OrderStored(l) ==> OrderStored(r)
  {
    Latch(l.signalledError, l.signalledValue, l.results[target := contacts],
          if target in l.results then l.order else l.order + [target], l.posted)
  }

  /** The test after storing: the merge of the stored maps is handed over
      when as many targets are stored as were requested, no error has been
      handed over and no success has been yet; the success latch is set
      whenever the first two hold. */
  function SignalIfReady(requested: seq<TargetInfo>, combine: seq<Contact> -> Contact, l: Latch): (r: Latch)
    requires OrderStored(l)
    ensures r.results == l.results && r.order == l.order && r.signalledError == l.signalledError
    ensures r.signalledValue == (l.signalledValue || (|l.results| == |requested| && !l.signalledError))
    ensures r.posted != l.posted <==> |l.results| == |requested| && !l.signalledError && !l.signalledValue
    ensures r.posted != l.posted ==>
              r.posted == l.posted + [DeliveredSuccess(Merged(InOrder(l.results, l.order), combine))]
    ensures OrderStored(r)
  {
    var ready := |l.results| == |requested| && !l.signalledError;
    Latch(l.signalledError, l.signalledValue || ready, l.results, l.order,
          l.posted + (if ready && !l.signalledValue
                      then [DeliveredSuccess(Merged(InOrder(l.results, l.order), combine))]
                      else []))
  }

  /** The `try` of withResultHandler once the read has produced `contacts`. */
  function Store(requested: seq<TargetInfo>, combine: seq<Contact> -> Contact, l: Latch,
                 target: TargetInfo, contacts: map<int, Contact>): (r: Latch)
    requires OrderStored(l)
    ensures OrderStored(r)
    ensures r.results == l.results[target := contacts]
    ensures target in l.results ==> r.order == l.order
    ensures target !in l.results ==> r.order == l.order + [target]
    ensures r.signalledError == l.signalledError
    ensures r.signalledValue == (l.signalledValue || (|r.results| == |requested| && !l.signalledError))
    ensures r.posted != l.posted <==> |r.results| == |requested| && !l.signalledError && !l.signalledValue
    ensures r.posted != l.posted ==>
              r.posted == l.posted + [DeliveredSuccess(Merged(InOrder(r.results, r.order), combine))]
  {
    SignalIfReady(requested, combine, Put(l, target, contacts))
  }

  /** The `catch` of withResultHandler: nothing is stored, and the error is
      handed over unless an error has been handed over already. */
  function Fail(l: Latch, message: string): (r: Latch)
    ensures r.signalledError && r.signalledValue == l.signalledValue
    ensures r.results == l.results && r.order == l.order
    ensures r.posted != l.posted <==> !l.signalledError
    ensures r.posted != l.posted ==> r.posted == l.posted + [DeliveredError("", message)]
    ensures OrderStored(l) ==> OrderStored(r)
  {
    Latch(true, l.signalledValue, l.results, l.order,
          l.posted + (if l.signalledError then [] else [DeliveredError("", message)]))
  }

  /** withResultHandler for one worker's completion. */
  function Step(requested: seq<TargetInfo>, combine: seq<Contact> -> Contact, l: Latch, c: Completion): (r: Latch)
    requires OrderStored(l)
    ensures OrderStored(r)
    ensures c.outcome.Failed? ==> r.results == l.results && r.order == l.order && r.signalledError
    ensures c.outcome.Failed? ==> r.signalledValue == l.signalledValue && (r.posted != l.posted <==> !l.signalledError)
    ensures c.outcome.Failed? && r.posted != l.posted ==> r.posted == l.posted + [DeliveredError("", c.outcome.message)]
    ensures c.outcome.Loaded? ==> r.results == l.results[c.target := c.outcome.contacts]
    ensures c.outcome.Loaded? && c.target in l.results ==> r.order == l.order
    ensures c.outcome.Loaded? && c.target !in l.results ==> r.order == l.order + [c.target]
    ensures c.outcome.Loaded? ==> r.signalledError == l.signalledError
    ensures c.outcome.Loaded? ==>
              r.signalledValue == (l.signalledValue || (|r.results| == |requested| && !l.signalledError))
    ensures c.outcome.Loaded? ==>
              (r.posted != l.posted <==> |r.results| == |requested| && !l.signalledError && !l.signalledValue)
    ensures c.outcome.Loaded? && r.posted != l.posted ==>
              r.posted == l.posted + [DeliveredSuccess(Merged(InOrder(r.results, r.order), combine))]
  {
    match c.outcome
    case Loaded(contacts) => Store(requested, combine, l, c.target, contacts)
    case Failed(message) => Fail(l, message)
  }

  /** The state once the completions `cs` have been handled, in order. */
  function Run(requested: seq<TargetInfo>, combine: seq<Contact> -> Contact, cs: seq<Completion>): (l: Latch)
    ensures OrderStored(l)
  {
    if cs == [] then Fresh
    else Step(requested, combine, Run(requested, combine, cs[..|cs| - 1]), cs[|cs| - 1])
  }

  lemma PutConsistent(requested: seq<TargetInfo>, l: Latch, target: TargetInfo, contacts: map<int, Contact>)
    requires Consistent(requested, l)
    requires target in requested
    ensures Consistent(requested, Put(l, target, contacts))
  {
    if target !in l.results {
      ElementsSnoc(l.order, target);
    }
  }

  lemma SignalIfReadyConsistent(requested: seq<TargetInfo>, combine: seq<Contact> -> Contact, l: Latch)
    requires Consistent(requested, l)
    ensures Consistent(requested, SignalIfReady(requested, combine, l))
  {
    var r := SignalIfReady(requested, combine, l);
    if r.signalledValue && !l.signalledValue {
      assert |l.results.Keys| == |l.results|;
      FullWhenLargeEnough(l.results.Keys, requested);
    }
  }

  /** Every completion of a requested target keeps the state consistent. */
  lemma StepConsistent(requested: seq<TargetInfo>, combine: seq<Contact> -> Contact, l: Latch, c: Completion)
    requires Consistent(requested, l)
    requires c.target in requested
    ensures Consistent(requested, Step(requested, combine, l, c))
  {
    if c.outcome.Loaded? {
      PutConsistent(requested, l, c.target, c.outcome.contacts);
      SignalIfReadyConsistent(requested, combine, Put(l, c.target, c.outcome.contacts));
    }
  }

  /** Every reachable state is consistent. */
  lemma {:induction false} RunConsistent(requested: seq<TargetInfo>, combine: seq<Contact> -> Contact, cs: seq<Completion>)
    requires forall k :: 0 <= k < |cs| ==> cs[k].target in requested
    ensures Consistent(requested, Run(requested, combine, cs))
  {
    if cs != [] {
      var init := cs[..|cs| - 1];
      RunConsistent(requested, combine, init);
      StepConsistent(requested, combine, Run(requested, combine, init), cs[|cs| - 1]);
    }
  }

  /** A request that names a target twice never succeeds: the stored maps,
      one per distinct target, never become as many as the targets named. */
  lemma NoSuccessWithRepeatedTarget(requested: seq<TargetInfo>, l: Latch)
    requires Consistent(requested, l)
    requires !Distinct(requested)
    ensures !l.signalledValue
    ensures Successes(l.posted) == 0
  {
    ElementsRepeated(requested);
    assert l.results.Keys <= Elements(requested);
    SubsetSize(l.results.Keys, Elements(requested));
    if |l.posted| == 1 {
      assert l.posted[..0] == [];
    }
  }

  /** In a consistent state a success and an error have each been handed
      over at most once, a success only with every requested target stored,
      and an error exactly when the error latch is set. */
  lemma DeliveredAtMostOnce(requested: seq<TargetInfo>, l: Latch)
    requires Consistent(requested, l)
    ensures Successes(l.posted) <= 1 && Errors(l.posted) <= 1
    ensures Successes(l.posted) == 1 ==> forall t :: t in requested ==> t in l.results
    ensures Errors(l.posted) == 1 <==> l.signalledError
  {
    var p := l.posted;
    if |p| == 2 {
      assert p[..1] == [p[0]] && [p[0]][..0] == [];
      assert Successes(p) == Successes([p[0]]) == 1;
      assert Errors(p) == Errors([p[0]]) + 1 == 1;
    } else if |p| == 1 {
      assert p[..0] == [];
    }
  }

  /** Once an error has been handed over, no completion hands over anything. */
  lemma NothingAfterError(requested: seq<TargetInfo>, combine: seq<Contact> -> Contact, l: Latch, c: Completion)
    requires OrderStored(l)
    requires l.signalledError
    ensures Step(requested, combine, l, c).posted == l.posted
    ensures Step(requested, combine, l, c).signalledError
  {
  }

  /** Once a success has been handed over, no completion hands over another. */
  lemma NoSecondSuccess(requested: seq<TargetInfo>, combine: seq<Contact> -> Contact, l: Latch, c: Completion)
    requires OrderStored(l)
    requires l.signalledValue
    ensures Step(requested, combine, l, c).signalledValue
    ensures Successes(Step(requested, combine, l, c).posted) == Successes(l.posted)
  {
    var p := Step(requested, combine, l, c).posted;
    if p != l.posted {
      assert p[..|p| - 1] == l.posted;
    }
  }

  /** The state shared by the workers of one `getContacts` request. */
  class FetchSession {
    /** The kinds of information requested. */
    const requested: seq<TargetInfo>
    /** `Contact.mergeInPlace`, which is not part of this model. */
    const combine: seq<Contact> -> Contact
    /** The two latches: an error has been handed over; a success has been. */
    var signalledError: bool
    var signalledValue: bool
    /** The partial contacts of every target that has finished reading ... */
    var results: map<TargetInfo, map<int, Contact>>
    /** ... and the order in which those targets were first stored. */
    var order: seq<TargetInfo>
    /** What has been queued for the application, in order. */
    var posted: seq<Delivery>

    ghost function State(): Latch
      reads this
    {
      Latch(signalledError, signalledValue, results, order, posted)
    }

    ghost predicate Valid()
      reads this
    {
      Consistent(requested, State())
    }

    constructor (requested: seq<TargetInfo>, combine: seq<Contact> -> Contact)
      ensures Valid()
      ensures this.requested == requested && this.combine == combine
      ensures State() == Fresh
    {
      this.requested := requested;
      this.combine := combine;
      signalledError := false;
      signalledValue := false;
      results := map[];
      order := [];
      posted := [];
    }

    /** handleResultsReady: merges the stored maps, in the order they were
        stored, and queues the result for the application. */
    method HandleResultsReady()
      requires forall t :: t in order ==> t in results
      modifies this`posted
      ensures posted == old(posted) + [DeliveredSuccess(Merged(InOrder(results, order), combine))]
    {
      var merged;
      ghost var calls;
      merged, calls := MergeContactsInfo(InOrder(results, order), combine);
      posted := posted + [DeliveredSuccess(merged)];
    }

    /** Stores the map a read produced. */
    method PutResult(target: TargetInfo, contacts: map<int, Contact>)
      requires Valid()
      requires target in requested
      modifies this
      ensures Valid()
      ensures State() == Put(old(State()), target, contacts)
    {
      PutConsistent(requested, State(), target, contacts);
      if target !in results {
        order := order + [target];
      }
      results := results[target := contacts];
    }

    /** Hands over the merged contacts once every requested target is stored. */
    method SignalWhenReady()
      requires Valid()
      modifies this
      ensures Valid()
      ensures State() == SignalIfReady(requested, combine, old(State()))
    {
      SignalIfReadyConsistent(requested, combine, State());
      ghost var expected := SignalIfReady(requested, combine, State());
      if |results| == |requested| && !signalledError {
        var alreadySignalled := signalledValue;
        signalledValue := true;
        if !alreadySignalled {
          HandleResultsReady();
          assert posted == expected.posted;
        }
      }
      assert results == expected.results && order == expected.order;
      assert signalledValue == expected.signalledValue && posted == expected.posted;
    }

    /** The body of withResultHandler's `try` once the read has produced
        `contacts`. */
    method StoreResult(target: TargetInfo, contacts: map<int, Contact>)
      requires Valid()
      requires target in requested
      modifies this
      ensures Valid()
      ensures State() == Store(requested, combine, old(State()), target, contacts)
    {
      PutResult(target, contacts);
      SignalWhenReady();
    }

    /** The body of withResultHandler's `catch`. */
    method SignalError(message: string)
      requires Valid()
      modifies this
      ensures Valid()
      ensures State() == Fail(old(State()), message)
    {
      var alreadySignalled := signalledError;
      signalledError := true;
      if !alreadySignalled {
        posted := posted + [DeliveredError("", message)];
      }
    }

    /** withResultHandler: a read that produced its map goes on with the
        `try` body; a read that threw stores nothing and goes on with the
        `catch` body. */
    method WithResultHandler(target: TargetInfo, outcome: Outcome)
      requires Valid()
      requires target in requested
      modifies this
      ensures Valid()
      ensures State() == Step(requested, combine, old(State()), Completion(target, outcome))
    {
      match outcome
      case Loaded(contacts) =>
        StoreResult(target, contacts);
      case Failed(message) =>
        SignalError(message);
    }
  }

  /** The first completion that failed, if any. */
  function FirstFailure(cs: seq<Completion>): (r: Option<nat>)
    ensures r.Some? ==> r.value < |cs| && cs[r.value].outcome.Failed?
                        && forall j :: 0 <= j < r.value ==> cs[j].outcome.Loaded?
    ensures r.None? ==> forall j :: 0 <= j < |cs| ==> cs[j].outcome.Loaded?
  {
    if cs == [] then None
    else
      var n := |cs| - 1;
      var r := FirstFailure(cs[..n]);
      if r.Some? then r
      else if cs[n].outcome.Failed? then Some(n)
      else None
  }

  /** The targets of the completions that loaded, in completion order. */
  function LoadedTargets(cs: seq<Completion>): seq<TargetInfo>
  {
    if cs == [] then []
    else
      var n := |cs| - 1;
      LoadedTargets(cs[..n]) + (if cs[n].outcome.Loaded? then [cs[n].target] else [])
  }

  /** The maps of the completions that loaded, in completion order; when none
      failed, one per completion. */
  function LoadedMaps(cs: seq<Completion>): (ms: seq<map<int, Contact>>)
    ensures |ms| == |LoadedTargets(cs)|
    ensures FirstFailure(cs).None? ==>
              |ms| == |cs| && forall k :: 0 <= k < |cs| ==> ms[k] == cs[k].outcome.contacts
  {
    if cs == [] then []
    else
      var n := |cs| - 1;
      LoadedMaps(cs[..n]) + (if cs[n].outcome.Loaded? then [cs[n].outcome.contacts] else [])
  }

  /** No two completions are for the same target. */
  ghost predicate OncePerTarget(cs: seq<Completion>)
  {
    forall k, l :: 0 <= k < l < |cs| ==> cs[k].target != cs[l].target
  }

  lemma {:induction false} NotLoadedYet(cs: seq<Completion>, t: TargetInfo)
    requires forall k :: 0 <= k < |cs| ==> cs[k].target != t
    ensures t !in LoadedTargets(cs)
  {
    if cs != [] {
      var n := |cs| - 1;
      NotLoadedYet(cs[..n], t);
    }
  }

  /** The targets of the completions, in completion order. */
  function TargetsOf(cs: seq<Completion>): (ts: seq<TargetInfo>)
    ensures |ts| == |cs| && forall k :: 0 <= k < |cs| ==> ts[k] == cs[k].target
  {
    seq(|cs|, k requires 0 <= k < |cs| => cs[k].target)
  }

  lemma SubsetSize(a: set<TargetInfo>, b: set<TargetInfo>)
    requires a <= b
    ensures |a| <= |b|
  {
    assert b == a + (b - a);
  }

  /** With one completion per target, all for requested targets, there are
      at most as many completions as requested targets. */
  lemma CompletionsBound(requested: seq<TargetInfo>, cs: seq<Completion>)
    requires OncePerTarget(cs)
    requires forall k :: 0 <= k < |cs| ==> cs[k].target in requested
    ensures |cs| <= |requested|
  {
    var ts := TargetsOf(cs);
    ElementsBound(ts);
    ElementsBound(requested);
    SubsetSize(Elements(ts), Elements(requested));
  }

  /** When the requested targets are distinct, the count the handler checks
      (as many results as requested targets) is reached exactly when every
      requested target has completed. */
  lemma AllReported(requested: seq<TargetInfo>, cs: seq<Completion>)
    requires Distinct(requested)
    requires OncePerTarget(cs)
    requires forall k :: 0 <= k < |cs| ==> cs[k].target in requested
    ensures |cs| == |requested| <==> forall t :: t in requested ==> t in TargetsOf(cs)
  {
    var ts := TargetsOf(cs);
    ElementsBound(ts);
    ElementsBound(requested);
    SubsetSize(Elements(ts), Elements(requested));
    if |cs| == |requested| {
      FullWhenLargeEnough(Elements(ts), requested);
    }
    if forall t :: t in requested ==> t in ts {
      SubsetSize(Elements(requested), Elements(ts));
    }
  }

  /** What has been stored once the completions `done` have been handled:
      the maps of the completions that loaded, in completion order, and,
      while nothing has failed, one map per completion. */
  ghost predicate StoredAsDone(l: Latch, done: seq<Completion>)
  {
    && (forall t :: t in l.results <==> t in l.order)
    && l.order == LoadedTargets(done)
    && InOrder(l.results, l.order) == LoadedMaps(done)
    && (FirstFailure(done).None? ==> |l.results| == |done|)
  }

  /** What the latches and the queue are once the completions `done` have
      been handled: the first failure, if any, has been handed over, and
      otherwise the merge once every requested target has completed. */
  ghost predicate LatchedAsDone(requested: seq<TargetInfo>, combine: seq<Contact> -> Contact, l: Latch, done: seq<Completion>)
  {
    var failure := FirstFailure(done);
    var complete := 0 < |done| == |requested|;
    && l.signalledError == failure.Some?
    && l.signalledValue == (failure.None? && complete)
    && l.posted == (if failure.Some? then [DeliveredError("", done[failure.value].outcome.message)]
                    else if complete then [DeliveredSuccess(Merged(LoadedMaps(done), combine))]
                    else [])
  }

  /** The state once the completions `done` have been handled, in terms of
      `done` alone. */
  ghost predicate Tracks(requested: seq<TargetInfo>, combine: seq<Contact> -> Contact, l: Latch, done: seq<Completion>)
  {
    StoredAsDone(l, done) && LatchedAsDone(requested, combine, l, done)
  }

  lemma {:induction false} SnocFacts(done: seq<Completion>, c: Completion)
    ensures (done + [c])[..|done|] == done && (done + [c])[|done|] == c
    ensures LoadedTargets(done + [c]) == LoadedTargets(done) + (if c.outcome.Loaded? then [c.target] else [])
    ensures LoadedMaps(done + [c]) == LoadedMaps(done) + (if c.outcome.Loaded? then [c.outcome.contacts] else [])
    ensures FirstFailure(done + [c])
            == if FirstFailure(done).Some? then FirstFailure(done)
               else if c.outcome.Failed? then Some(|done|) else None
  {
    assert (done + [c])[..|done|] == done;
  }

  /** Storing the map of a completion that loaded, for a target not seen before. */
  lemma {:induction false} PutTracks(l: Latch, done: seq<Completion>, c: Completion)
    requires c.outcome.Loaded?
    requires forall k :: 0 <= k < |done| ==> done[k].target != c.target
    requires StoredAsDone(l, done)
    ensures StoredAsDone(Put(l, c.target, c.outcome.contacts), done + [c])
  {
    SnocFacts(done, c);
    NotLoadedYet(done, c.target);
    InOrderAppend(l.results, l.order, c.target, c.outcome.contacts);
  }

  /** The test after storing the map of a completion that loaded. */
  lemma {:induction false} SignalTracks(requested: seq<TargetInfo>, combine: seq<Contact> -> Contact,
                                        l: Latch, p: Latch, done: seq<Completion>, c: Completion)
    requires |done| < |requested| && c.outcome.Loaded?
    requires LatchedAsDone(requested, combine, l, done)
    requires StoredAsDone(p, done + [c])
    requires p.signalledError == l.signalledError && p.signalledValue == l.signalledValue && p.posted == l.posted
    ensures LatchedAsDone(requested, combine, SignalIfReady(requested, combine, p), done + [c])
  {
    SnocFacts(done, c);
  }

  /** A completion that loaded, for a target not seen before. */
  lemma {:induction false} LoadedStep(requested: seq<TargetInfo>, combine: seq<Contact> -> Contact,
                                      l: Latch, done: seq<Completion>, c: Completion)
    requires |done| < |requested| && c.outcome.Loaded?
    requires forall k :: 0 <= k < |done| ==> done[k].target != c.target
    requires Tracks(requested, combine, l, done)
    ensures Tracks(requested, combine, Step(requested, combine, l, c), done + [c])
  {
    var p := Put(l, c.target, c.outcome.contacts);
    PutTracks(l, done, c);
    SignalTracks(requested, combine, l, p, done, c);
  }

  /** A completion that failed. */
  lemma {:induction false} FailedStep(requested: seq<TargetInfo>, combine: seq<Contact> -> Contact,
                                      l: Latch, done: seq<Completion>, c: Completion)
    requires |done| < |requested| && c.outcome.Failed?
    requires Tracks(requested, combine, l, done)
    ensures Tracks(requested, combine, Step(requested, combine, l, c), done + [c])
  {
    SnocFacts(done, c);
  }

  /** Handling one completion per target, all requested, reaches the state
      `Tracks` describes. */
  lemma {:induction false} RunTracks(requested: seq<TargetInfo>, combine: seq<Contact> -> Contact, cs: seq<Completion>)
    requires forall k :: 0 <= k < |cs| ==> cs[k].target in requested
    requires OncePerTarget(cs)
    ensures Tracks(requested, combine, Run(requested, combine, cs), cs)
  {
    if cs == [] {
    } else {
      var init, c := cs[..|cs| - 1], cs[|cs| - 1];
      assert cs == init + [c];
      RunTracks(requested, combine, init);
      CompletionsBound(requested, cs);
      if c.outcome.Loaded? {
        LoadedStep(requested, combine, Run(requested, combine, init), init, c);
      } else {
        FailedStep(requested, combine, Run(requested, combine, init), init, c);
      }
    }
  }

  /** What has been handed over once the completions `done` are handled. */
  lemma TracksPosted(requested: seq<TargetInfo>, combine: seq<Contact> -> Contact, l: Latch, done: seq<Completion>)
    requires Tracks(requested, combine, l, done)
    ensures |l.posted| <= 1
    ensures FirstFailure(done).Some? ==> l.posted == [DeliveredError("", done[FirstFailure(done).value].outcome.message)]
    ensures FirstFailure(done).None? && 0 < |done| == |requested| ==>
              l.posted == [DeliveredSuccess(Merged(LoadedMaps(done), combine))]
    ensures FirstFailure(done).None? && |done| != |requested| ==> l.posted == []
    ensures done == [] ==> l.posted == []
  {
  }

  /** The completions come from distinct workers, one started per entry of
      `requested`: `worker[k]` is the entry whose worker reported `cs[k]`. */
  ghost predicate FromWorkers(requested: seq<TargetInfo>, cs: seq<Completion>, worker: seq<nat>)
  {
    && |worker| == |cs|
    && (forall k :: 0 <= k < |cs| ==> worker[k] < |requested| && requested[worker[k]] == cs[k].target)
    && Distinct(worker)
  }

  /** With distinct requested targets, distinct workers report distinct targets. */
  lemma WorkersOncePerTarget(requested: seq<TargetInfo>, cs: seq<Completion>, worker: seq<nat>)
    requires FromWorkers(requested, cs, worker)
    requires Distinct(requested)
    ensures OncePerTarget(cs)
    ensures forall k :: 0 <= k < |cs| ==> cs[k].target in requested
  {
    forall k, l | 0 <= k < l < |cs|
      ensures cs[k].target != cs[l].target
    {
      assert worker[k] != worker[l];
    }
  }

  /** What has been handed over once the workers' completions `cs` have
      been handled, in order. */
  lemma RunOutcome(requested: seq<TargetInfo>, combine: seq<Contact> -> Contact, cs: seq<Completion>, worker: seq<nat>)
    requires FromWorkers(requested, cs, worker)
    ensures Successes(Run(requested, combine, cs).posted) <= 1 && Errors(Run(requested, combine, cs).posted) <= 1
    ensures !Distinct(requested) ==> Successes(Run(requested, combine, cs).posted) == 0
    ensures Distinct(requested) ==> |Run(requested, combine, cs).posted| <= 1
    ensures Distinct(requested) && FirstFailure(cs).Some? ==>
              Run(requested, combine, cs).posted == [DeliveredError("", cs[FirstFailure(cs).value].outcome.message)]
    ensures Distinct(requested) && FirstFailure(cs).None? && 0 < |cs| == |requested| ==>
              Run(requested, combine, cs).posted == [DeliveredSuccess(Merged(LoadedMaps(cs), combine))]
    ensures Distinct(requested) && FirstFailure(cs).None? && |cs| < |requested| ==> Run(requested, combine, cs).posted == []
    ensures Distinct(requested) && 0 < |cs| == |requested| ==> |Run(requested, combine, cs).posted| == 1
    ensures requested == [] ==> Run(requested, combine, cs).posted == []
  {
    var l := Run(requested, combine, cs);
    RunConsistent(requested, combine, cs);
    DeliveredAtMostOnce(requested, l);
    if Distinct(requested) {
      WorkersOncePerTarget(requested, cs, worker);
      RunTracks(requested, combine, cs);
      TracksPosted(requested, combine, l, cs);
    } else {
      NoSuccessWithRepeatedTarget(requested, l);
    }
  }

  /** getContacts with the workers' completions in the order they arrive:
      the first failure, if any, is the one error handed over; otherwise the
      merge of all maps, in completion order, is handed over once every
      requested target has completed, and nothing before that. A request
      that names a target twice never succeeds. */
  method GetContacts(requested: seq<TargetInfo>, combine: seq<Contact> -> Contact,
                     completions: seq<Completion>, ghost worker: seq<nat>)
    returns (posted: seq<Delivery>)
    requires Basic !in requested
    requires FromWorkers(requested, completions, worker)
    ensures Successes(posted) <= 1 && Errors(posted) <= 1
    ensures !Distinct(requested) ==> Successes(posted) == 0
    ensures Distinct(requested) ==> |posted| <= 1
    ensures Distinct(requested) && FirstFailure(completions).Some? ==>
              posted == [DeliveredError("", completions[FirstFailure(completions).value].outcome.message)]
    ensures Distinct(requested) && FirstFailure(completions).None? && 0 < |completions| == |requested| ==>
              posted == [DeliveredSuccess(Merged(LoadedMaps(completions), combine))]
    ensures Distinct(requested) && FirstFailure(completions).None? && |completions| < |requested| ==> posted == []
    ensures Distinct(requested) && 0 < |completions| == |requested| ==> |posted| == 1
    ensures requested == [] ==> posted == []
  {
    var session := new FetchSession(requested, combine);
    HandleAll(session, completions, worker);
    posted := session.posted;
    RunOutcome(requested, combine, completions, worker);
  }

  /** Handling one more completion extends `Run` by one step. */
  lemma RunPrefix(requested: seq<TargetInfo>, combine: seq<Contact> -> Contact, cs: seq<Completion>, i: nat)
    requires i < |cs|
    ensures Run(requested, combine, cs[..i + 1]) == Step(requested, combine, Run(requested, combine, cs[..i]), cs[i])
  {
    assert cs[..i + 1][..i] == cs[..i];
  }

  /** The workers' calls of withResultHandler, in the order they arrive. */
  method HandleAll(session: FetchSession, completions: seq<Completion>, ghost worker: seq<nat>)
    requires session.Valid() && session.State() == Fresh
    requires FromWorkers(session.requested, completions, worker)
    modifies session
    ensures session.Valid()
    ensures session.State() == Run(session.requested, session.combine, completions)
  {
    assert completions[..0] == [];
    var i := 0;
    while i < |completions|
      invariant 0 <= i <= |completions|
      invariant session.Valid()
      invariant session.State() == Run(session.requested, session.combine, completions[..i])
    {
      var c := completions[i];
      RunPrefix(session.requested, session.combine, completions, i);
      session.WithResultHandler(c.target, c.outcome);
      i := i + 1;
    }
    assert completions[..i] == completions;
  }
}
