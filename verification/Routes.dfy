/**
 The route tracker: several owners share one kernel route, which is deleted
 when the last of them leaves.
 */
module Routes {

  type Key = string
  type Owner = string

  /** What the kernel answers to adding a route, and to updating one that exists. */
  datatype AddOutcome = Added | AlreadyThere | ExistsError(updated: bool) | OtherError

  /** The tracker together with the kernel's routes and the deletions it was asked for. */
  datatype State = State(tracker: map<Key, set<Owner>>, kernel: set<Key>, deletions: seq<Key>)

  predicate AddSucceeds(outcome: AddOutcome, update: bool) {
    outcome.Added? || outcome.AlreadyThere? || (outcome.ExistsError? && update && outcome.updated)
  }

  datatype Step =
    | Add(owner: Owner, key: Key, update: bool, outcome: AddOutcome)
    | Delete(owner: Owner, key: Key, deleted: bool)

  /** The abstract tracker: which owner holds which route. */
  ghost predicate Holds(s: State, key: Key, owner: Owner)
  {
    key in s.tracker && owner in s.tracker[key]
  }

  ghost predicate LastOwner(s: State, key: Key, owner: Owner)
  {
    Holds(s, key, owner) && forall o :: Holds(s, key, o) ==> o == owner
  }

  /** Every tracked route has an owner and is in the kernel. */
  ghost predicate Valid(s: State)
  {
    && (forall key :: key in s.tracker ==> s.tracker[key] != {})
    && s.tracker.Keys <= s.kernel
  }

  // ---- Runs ------------------------------------------------------------------------------

  /** One call as a step on values. */
  function Next(s: State, step: Step): State {
    match step
    case Add(owner, key, update, outcome) =>
      if key in s.tracker then s.(tracker := s.tracker[key := s.tracker[key] + {owner}])
      else
        var s' := s.(kernel := if outcome.OtherError? then s.kernel else s.kernel + {key});
        if AddSucceeds(outcome, update) then s'.(tracker := s.tracker[key := {owner}]) else s'
    case Delete(owner, key, deleted) =>
      if key !in s.tracker then s
      else if s.tracker[key] - {owner} != {} then s.(tracker := s.tracker[key := s.tracker[key] - {owner}])
      else
        var s' := s.(deletions := s.deletions + [key]);
        if deleted then s'.(tracker := s.tracker - {key}, kernel := s.kernel - {key})
        else s'.(tracker := s.tracker[key := s.tracker[key] - {owner} + {owner}])
  }

  function Run(kernel: set<Key>, steps: seq<Step>): State
    decreases |steps|
  {
    if steps == [] then State(map[], kernel, []) else Next(Run(kernel, steps[..|steps| - 1]), steps[|steps| - 1])
  }

  /** The specification the tracker refines: a plain set of (route, owner) pairs, with the calls' success. */
  function Succeeds(s: State, step: Step): bool {
    match step
    case Add(owner, key, update, outcome) => key in s.tracker || AddSucceeds(outcome, update)
    case Delete(owner, key, deleted) => deleted || key !in s.tracker || s.tracker[key] - {owner} != {}
  }

  ghost function Pairs(kernel: set<Key>, steps: seq<Step>): set<(Key, Owner)>
    decreases |steps|
  {
    if steps == [] then {}
    else
      var before, step := Pairs(kernel, steps[..|steps| - 1]), steps[|steps| - 1];
      if !Succeeds(Run(kernel, steps[..|steps| - 1]), step) then before
      else if step.Add? then before + {(step.key, step.owner)}
      else before - {(step.key, step.owner)}
  }

  /** With a valid tracker, the owner set empties exactly when its last owner is taken out. */
  lemma LastOwnerLeaves(s: State, key: Key, owner: Owner)
    requires Valid(s) && key in s.tracker
    ensures s.tracker[key] - {owner} == {} <==> s.tracker[key] == {owner}
    ensures s.tracker[key] == {owner} <==> LastOwner(s, key, owner)
  {
    assert forall o :: o in s.tracker[key] <==> Holds(s, key, o);
    if s.tracker[key] - {owner} == {} {
      var o :| o in s.tracker[key];
      assert forall p :: p in s.tracker[key] && p != owner ==> p in s.tracker[key] - {owner};
    }
  }

  /** A failed call leaves the tracker as it was, on every error branch. */
  lemma FailureKeepsTracker(s: State, step: Step)
    requires Valid(s)
    ensures !Succeeds(s, step) ==> Next(s, step).tracker == s.tracker
  {
    if step.Delete? && step.key in s.tracker {
      LastOwnerLeaves(s, step.key, step.owner);
      assert {step.owner} - {step.owner} + {step.owner} == {step.owner};
    }
  }

  lemma ValidNext(s: State, step: Step)
    requires Valid(s)
    ensures Valid(Next(s, step))
    ensures forall k, o :: Holds(Next(s, step), k, o) <==>
              if Succeeds(s, step) && k == step.key && o == step.owner then step.Add? else Holds(s, k, o)
  {
    if step.Delete? && step.key in s.tracker {
      LastOwnerLeaves(s, step.key, step.owner);
    }
  }

  /** Over every run the tracker is exactly the set of pairs that the successful calls leave, never with an empty owner set. */
  lemma {:induction false} TrackerRefinesPairs(kernel: set<Key>, steps: seq<Step>)
    ensures var s := Run(kernel, steps);
            Valid(s) && forall k, o :: Holds(s, k, o) <==> (k, o) in Pairs(kernel, steps)
    decreases |steps|
  {
    if steps == [] {
    } else {
      TrackerRefinesPairs(kernel, steps[..|steps| - 1]);
      ValidNext(Run(kernel, steps[..|steps| - 1]), steps[|steps| - 1]);
    }
  }

  /** A kernel deletion is issued exactly when the last owner leaves, in every run. */
  lemma DeletionAtLastOwner(kernel: set<Key>, steps: seq<Step>, owner: Owner, key: Key, deleted: bool)
    ensures var s := Run(kernel, steps);
            Next(s, Delete(owner, key, deleted)).deletions
            == if (key, owner) in Pairs(kernel, steps) && (forall o :: (key, o) in Pairs(kernel, steps) ==> o == owner)
               then s.deletions + [key] else s.deletions
  {
    TrackerRefinesPairs(kernel, steps);
    var s := Run(kernel, steps);
    assert forall o :: Holds(s, key, o) <==> (key, o) in Pairs(kernel, steps);
    if key in s.tracker {
      LastOwnerLeaves(s, key, owner);
    }
  }

  /** Somebody holds the route. */
  ghost predicate Held(kernel: set<Key>, steps: seq<Step>, key: Key)
  {
    exists o :: (key, o) in Pairs(kernel, steps)
  }

  /** The owner holds the route and nobody else does. */
  ghost predicate HeldOnlyBy(kernel: set<Key>, steps: seq<Step>, key: Key, owner: Owner)
  {
    (key, owner) in Pairs(kernel, steps) && forall o :: (key, o) in Pairs(kernel, steps) ==> o == owner
  }

  /** An addition fails exactly when nobody holds the route and the kernel neither adds it, has it, nor updates it on request. */
  lemma AddExactly(kernel: set<Key>, steps: seq<Step>, owner: Owner, key: Key, update: bool, outcome: AddOutcome)
    ensures var s, step := Run(kernel, steps), Add(owner, key, update, outcome);
            var s' := Next(s, step);
            && (!Succeeds(s, step)
                <==> !Held(kernel, steps, key) && (outcome.OtherError? || (outcome.ExistsError? && !(update && outcome.updated))))
            && (Succeeds(s, step) ==> Holds(s', key, owner) && key in s'.kernel)
            && s'.kernel - {key} == s.kernel - {key} && s'.deletions == s.deletions
            && (Held(kernel, steps, key) ==> s'.kernel == s.kernel)
  {
    TrackerRefinesPairs(kernel, steps);
    var s := Run(kernel, steps);
    ValidNext(s, Add(owner, key, update, outcome));
    TrackedMeansHeld(kernel, steps, key);
  }

  lemma TrackedMeansHeld(kernel: set<Key>, steps: seq<Step>, key: Key)
    ensures key in Run(kernel, steps).tracker <==> Held(kernel, steps, key)
  {
    TrackerRefinesPairs(kernel, steps);
    var s := Run(kernel, steps);
    if key in s.tracker {
      var o :| o in s.tracker[key];
      assert Holds(s, key, o);
    }
    if Held(kernel, steps, key) {
      var o :| (key, o) in Pairs(kernel, steps);
      assert Holds(s, key, o);
    }
  }

  /** A removal fails exactly when the last owner leaves and the kernel refuses; if it agrees, the route is gone. */
  lemma DeleteExactly(kernel: set<Key>, steps: seq<Step>, owner: Owner, key: Key, deleted: bool)
    ensures var s, step := Run(kernel, steps), Delete(owner, key, deleted);
            var s' := Next(s, step);
            && (!Succeeds(s, step) <==> HeldOnlyBy(kernel, steps, key, owner) && !deleted)
            && (Holds(s', key, owner) <==> !Succeeds(s, step))
            && s'.kernel == s.kernel - (if HeldOnlyBy(kernel, steps, key, owner) && deleted then {key} else {})
  {
    TrackerRefinesPairs(kernel, steps);
    var s := Run(kernel, steps);
    ValidNext(s, Delete(owner, key, deleted));
    assert forall o :: Holds(s, key, o) <==> (key, o) in Pairs(kernel, steps);
    if key in s.tracker {
      LastOwnerLeaves(s, key, owner);
    }
  }

  // ---- The manager's own code ---------------------------------------------------------------

  lemma OneMoreCleared(kernel: set<Key>, done: set<Key>, key: Key, undeletable: set<Key>)
    requires key !in done
    ensures kernel - ((done + {key}) - undeletable)
            == if key in undeletable then kernel - (done - undeletable) else kernel - (done - undeletable) - {key}
    ensures |done + {key}| == |done| + 1
  {
  }

  class Manager {
    var tracker: map<Key, set<Owner>>
    /** The kernel side. */
    var kernel: set<Key>
    var deletions: seq<Key>

    ghost function View(): State
      reads this
    {
      State(tracker, kernel, deletions)
    }

    constructor (kernel: set<Key>)
      ensures View() == State(map[], kernel, []) && Valid(View())
    {
      tracker, deletions := map[], [];
      this.kernel := kernel;
    }

    method AddRoute(key: Key, outcome: AddOutcome) returns (failed: bool, exists_: bool)
      modifies this`kernel
      ensures failed == (outcome.ExistsError? || outcome.OtherError?) && exists_ == outcome.ExistsError?
      ensures kernel == if outcome.OtherError? then old(kernel) else old(kernel) + {key}
    {
      if !outcome.OtherError? {
        kernel := kernel + {key};
      }
      return outcome.ExistsError? || outcome.OtherError?, outcome.ExistsError?;
    }

    method DeleteRoute(key: Key, deleted: bool) returns (ok: bool)
      modifies this`kernel, this`deletions
      ensures ok == deleted && deletions == old(deletions) + [key]
      ensures kernel == if deleted then old(kernel) - {key} else old(kernel)
    {
      deletions := deletions + [key];
      if deleted {
        kernel := kernel - {key};
      }
      return deleted;
    }

    /** Adds one owner; the kernel is asked only for an untracked route, and a failure changes no ownership. */
    method Add(owner: Owner, key: Key, update: bool, outcome: AddOutcome) returns (ok: bool)
      requires Valid(View())
      modifies this
      ensures View() == Next(old(View()), Step.Add(owner, key, update, outcome)) && Valid(View())
      ensures ok == Succeeds(old(View()), Step.Add(owner, key, update, outcome))
      ensures !ok ==> tracker == old(tracker)
    {
      ValidNext(View(), Step.Add(owner, key, update, outcome));
      var owners: set<Owner>;
      if key !in tracker {
        var failed, exists_ := AddRoute(key, outcome);
        if failed {
          if update && exists_ {
            if !outcome.updated {
              return false;
            }
          } else {
            return false;
          }
        }
        owners := {};
      } else {
        owners := tracker[key];
      }
      tracker := tracker[key := owners + {owner}];
      assert {} + {owner} == {owner};
      return true;
    }

    /** Removes one owner; the kernel deletion is issued exactly for the last one, and its failure restores the owner. */
    method Delete(owner: Owner, key: Key, deleted: bool) returns (ok: bool)
      requires Valid(View())
      modifies this
      ensures View() == Next(old(View()), Step.Delete(owner, key, deleted)) && Valid(View())
      ensures ok == Succeeds(old(View()), Step.Delete(owner, key, deleted))
      ensures !ok ==> tracker == old(tracker)
    {
      ValidNext(View(), Step.Delete(owner, key, deleted));
      FailureKeepsTracker(View(), Step.Delete(owner, key, deleted));
      if key !in tracker {
        return true;
      }
      tracker := tracker[key := tracker[key] - {owner}];
      if tracker[key] == {} {
        var gone := DeleteRoute(key, deleted);
        if !gone {
          tracker := tracker[key := tracker[key] + {owner}];
          return false;
        }
        tracker := tracker - {key};
      }
      return true;
    }

    /** Drops everything, asking the kernel to delete each tracked route once. */
    method Clear(undeletable: set<Key>)
      requires Valid(View())
      modifies this
      ensures Valid(View()) && tracker == map[]
      ensures kernel == old(kernel) - (old(tracker.Keys) - undeletable)
      ensures |deletions| == |old(deletions)| + |old(tracker)|
    {
      var todo := tracker.Keys;
      ghost var done := {};
      while todo != {}
        invariant tracker == old(tracker) && todo !! done && todo + done == tracker.Keys
        invariant kernel == old(kernel) - (done - undeletable)
        invariant |deletions| == |old(deletions)| + |done|
        decreases todo
      {
        var key :| key in todo;
        OneMoreCleared(old(kernel), done, key, undeletable);
        var ok := DeleteRoute(key, key !in undeletable);
        todo := todo - {key};
        done := done + {key};
      }
      assert done == old(tracker.Keys);
      tracker := map[];
    }
  }
}
