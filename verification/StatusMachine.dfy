/** The transition checker shared by the project, calculation and report
    endpoints, and what it guarantees for every run of PATCH requests over any
    transition map whose edges climb. */
module StatusMachine {
  type Transitions<S> = map<S, set<S>>

  /** The checker lets a status stay, follow an edge, or become `rejected`. */
  predicate Accepted<S(==)>(from: S, to: S, valid: Transitions<S>, rejected: S) {
    from == to || (from in valid && to in valid[from]) || to == rejected
  }

  function Patch<S(==)>(from: S, to: S, valid: Transitions<S>, rejected: S): S {
    if Accepted(from, to, valid, rejected) then to else from
  }

  function PatchRun<S(==)>(from: S, targets: seq<S>, valid: Transitions<S>, rejected: S): S
    decreases |targets|
  {
    if targets == [] then from
    else PatchRun(Patch(from, targets[0], valid, rejected), targets[1..], valid, rejected)
  }

  /** The requests that change the status to a different one. */
  function Changes<S(==)>(from: S, targets: seq<S>, valid: Transitions<S>, rejected: S): nat
    decreases |targets|
  {
    if targets == [] then 0
    else
      var next := Patch(from, targets[0], valid, rejected);
      (if next != from then 1 else 0) + Changes(next, targets[1..], valid, rejected)
  }

  /** Edges raise the rank, and `rejected` alone has the highest one. */
  ghost predicate Climbs<S(!new)>(valid: Transitions<S>, rejected: S, rank: S -> nat) {
    && (forall from, to :: from in valid && to in valid[from] ==> rank(from) < rank(to))
    && (forall s :: s != rejected ==> rank(s) < rank(rejected))
  }

  lemma PatchClimbs<S(!new)>(from: S, to: S, valid: Transitions<S>, rejected: S, rank: S -> nat)
    requires Climbs(valid, rejected, rank)
    ensures Patch(from, to, valid, rejected) != from ==> rank(from) < rank(Patch(from, to, valid, rejected))
    ensures from == rejected ==> Patch(from, to, valid, rejected) == rejected
    ensures rank(Patch(from, to, valid, rejected)) <= rank(rejected)
  {
  }

  /** Main result: over any run the rank never falls, each real change raises it,
      there are no more changes than ranks above the start, and `rejected` is
      never left. */
  lemma {:induction false} RunClimbs<S(!new)>(from: S, targets: seq<S>, valid: Transitions<S>, rejected: S, rank: S -> nat)
    requires Climbs(valid, rejected, rank)
    ensures var end, changes := PatchRun(from, targets, valid, rejected), Changes(from, targets, valid, rejected);
      && rank(from) + changes <= rank(end) <= rank(rejected)
      && (from == rejected ==> end == rejected)
      && (changes == 0 <==> end == from)
    decreases |targets|
  {
    if targets == [] {
      PatchClimbs(from, from, valid, rejected, rank);
    } else {
      var next := Patch(from, targets[0], valid, rejected);
      PatchClimbs(from, targets[0], valid, rejected, rank);
      RunClimbs(next, targets[1..], valid, rejected, rank);
    }
  }

  // ---- the PATCH handlers' write: check the status, then set every field ----

  datatype Field<S> = StatusTo(target: S) | UnknownStatus | Other(name: string, value: string)

  datatype Row<S> = Row(status: S, others: map<string, string>)

  datatype PatchReply = Saved | InvalidTransition | InvalidStatus

  predicate IsStatus<S>(f: Field<S>) { f.StatusTo? || f.UnknownStatus? }

  /** The payload is a dictionary: every key occurs once. */
  ghost predicate KeysDistinct<S>(updates: seq<Field<S>>) {
    forall i, j :: 0 <= i < j < |updates| ==>
      !(IsStatus(updates[i]) && IsStatus(updates[j]))
      && !(updates[i].Other? && updates[j].Other? && updates[i].name == updates[j].name)
  }

  /** The row that the handler stores holds the payload's value for every field
      of the payload and the old value for every other field, and it stores
      nothing unless the checker accepts the payload's status. */
  method PatchRow<S(==)>(row: Row<S>, updates: seq<Field<S>>, valid: Transitions<S>, rejected: S)
    returns (saved: Row<S>, reply: PatchReply)
    requires KeysDistinct(updates)
    ensures reply.InvalidStatus? <==> UnknownStatus in updates
    ensures reply.InvalidTransition? <==> exists i :: 0 <= i < |updates| && updates[i].StatusTo? && !Accepted(row.status, updates[i].target, valid, rejected)
    ensures !reply.Saved? ==> saved == row
    ensures reply.Saved? ==> forall i :: 0 <= i < |updates| && updates[i].StatusTo? ==>
      saved.status == updates[i].target == Patch(row.status, updates[i].target, valid, rejected)
    ensures (forall i :: 0 <= i < |updates| ==> !updates[i].StatusTo?) ==> saved.status == row.status
    ensures reply.Saved? ==> forall i :: 0 <= i < |updates| && updates[i].Other? ==>
      updates[i].name in saved.others && saved.others[updates[i].name] == updates[i].value
    ensures reply.Saved? ==> forall name :: (forall i :: 0 <= i < |updates| && updates[i].Other? ==> updates[i].name != name) ==>
      (name in saved.others <==> name in row.others) && (name in row.others ==> saved.others[name] == row.others[name])
  {
    saved, reply := row, Saved;
    var k := 0;
    while k < |updates|
      invariant 0 <= k <= |updates|
      invariant forall i :: 0 <= i < k ==> !updates[i].UnknownStatus?
      invariant forall i :: 0 <= i < k && updates[i].StatusTo? ==> Accepted(row.status, updates[i].target, valid, rejected)
    {
      if updates[k].UnknownStatus? {
        return row, InvalidStatus;
      }
      if updates[k].StatusTo? && !Accepted(row.status, updates[k].target, valid, rejected) {
        return row, InvalidTransition;
      }
      k := k + 1;
    }
    k := 0;
    while k < |updates|
      invariant 0 <= k <= |updates|
      invariant forall i :: 0 <= i < k && updates[i].StatusTo? ==> saved.status == updates[i].target
      invariant (forall i :: 0 <= i < k ==> !updates[i].StatusTo?) ==> saved.status == row.status
      invariant forall i :: 0 <= i < k && updates[i].Other? ==>
        updates[i].name in saved.others && saved.others[updates[i].name] == updates[i].value
      invariant forall name :: (forall i :: 0 <= i < k && updates[i].Other? ==> updates[i].name != name) ==>
        (name in saved.others <==> name in row.others) && (name in row.others ==> saved.others[name] == row.others[name])
    {
      match updates[k] {
        case StatusTo(target) => saved := saved.(status := target);
        case Other(name, value) => saved := saved.(others := saved.others[name := value]);
        case UnknownStatus =>
      }
      k := k + 1;
    }
  }
}
