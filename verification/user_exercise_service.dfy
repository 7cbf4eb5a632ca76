/** The user-exercise service: listing, lookup by id, partial update and
    deletion over the user-exercise collection. */
module UserExerciseService {
  import opened Wrappers
  import opened Lookup

  /** A user's exercise document; every field but the id may be null. */
  datatype UserExercise = UserExercise(
    id: string,
    name: Option<string>,
    target: Option<string>,
    description: Option<string>,
    instructions: Option<string>,
    image: Option<string>,
    advices: Option<string>,
    video: Option<string>,
    userId: Option<string>,
    sessionId: Option<string>)

  /** The two exceptions the service throws. */
  datatype ExerciseError =
    | NoSuchElementException(message: string)
    | RuntimeException(message: string)

  function NotFoundMessage(id: string): string {
    "Exercise not found with id: " + id
  }

  /** Document ids are unique in a collection. */
  ghost predicate UniqueIds(exercises: seq<UserExercise>) {
    forall i, j :: 0 <= i < j < |exercises| ==> exercises[i].id != exercises[j].id
  }

  /** Holds for the documents whose id is not `id`. */
  function OtherThan(id: string): UserExercise -> bool {
    (e: UserExercise) => e.id != id
  }

  predicate HasId(e: UserExercise, id: string) {
    e.id == id
  }

  /** The first exercise in `exercises` whose id equals `id`, or the
      NoSuchElementException naming the id. */
  function GetExerciseById(exercises: seq<UserExercise>, id: string): (r: Result<UserExercise, ExerciseError>)
    ensures r.Success? <==> exists i :: 0 <= i < |exercises| && exercises[i].id == id
    ensures r.Success? ==> r.value.id == id && r.value in exercises
    ensures r.Success? ==>
      exists i :: (&& 0 <= i < |exercises| && exercises[i] == r.value
                   && forall j :: 0 <= j < i ==> exercises[j].id != id)
    ensures r.Failure? ==> r.error == NoSuchElementException(NotFoundMessage(id))
  {
    match FirstIndex(exercises, (e: UserExercise) => HasId(e, id))
    case Some(i) => Success(exercises[i])
    case None => Failure(NoSuchElementException(NotFoundMessage(id)))
  }

  /** The index of the document with id `id`, when there is one. */
  function IndexOf(exercises: seq<UserExercise>, id: string): (r: Option<nat>)
    ensures r.Some? ==> r.value < |exercises| && exercises[r.value].id == id
    ensures r.None? <==> forall i :: 0 <= i < |exercises| ==> exercises[i].id != id
    ensures r.Some? ==> GetExerciseById(exercises, id) == Success(exercises[r.value])
  {
    FirstIndex(exercises, (e: UserExercise) => HasId(e, id))
  }

  /** `exercise` with the three updatable fields taken from `update`. */
  function Updated(exercise: UserExercise, update: UserExercise): (r: UserExercise)
    ensures r.name == update.name && r.description == update.description && r.target == update.target
    ensures r == exercise.(name := r.name, description := r.description, target := r.target)
  {
    exercise.(name := update.name, description := update.description, target := update.target)
  }

  lemma UniqueIdsTail(exercises: seq<UserExercise>)
    requires |exercises| > 0 && UniqueIds(exercises)
    ensures UniqueIds(exercises[1..])
  {
    var tail := exercises[1..];
    forall i, j | 0 <= i < j < |tail| ensures tail[i].id != tail[j].id {
      assert tail[i] == exercises[i + 1] && tail[j] == exercises[j + 1];
    }
  }

  lemma UniqueIdsCons(e: UserExercise, rest: seq<UserExercise>)
    requires UniqueIds(rest)
    requires forall k :: 0 <= k < |rest| ==> rest[k].id != e.id
    ensures UniqueIds([e] + rest)
  {
    var all := [e] + rest;
    forall i, j | 0 <= i < j < |all| ensures all[i].id != all[j].id {
      assert all[j] == rest[j - 1];
      if i > 0 {
        assert all[i] == rest[i - 1];
      }
    }
  }

  /** Removing every document with id `id` from a collection with unique
      ids keeps the ids unique. */
  lemma {:induction false} KeepKeepsUniqueIds(exercises: seq<UserExercise>, id: string)
    requires UniqueIds(exercises)
    ensures UniqueIds(Keep(exercises, OtherThan(id)))
  {
    if |exercises| > 0 {
      var tail := exercises[1..];
      UniqueIdsTail(exercises);
      KeepKeepsUniqueIds(tail, id);
      var keep := OtherThan(id);
      var rest := Keep(tail, keep);
      assert Keep(exercises, keep) == (if keep(exercises[0]) then [exercises[0]] else []) + rest;
      if keep(exercises[0]) {
        forall k | 0 <= k < |rest| ensures rest[k].id != exercises[0].id {
          assert rest[k] in tail;
          var m :| 0 <= m < |tail| && tail[m] == rest[k];
          assert tail[m] == exercises[m + 1];
        }
        UniqueIdsCons(exercises[0], rest);
      }
    }
  }

  /** The user-exercise collection, in stored order. */
  class UserExerciseRepository {
    var exercises: seq<UserExercise>

    ghost predicate Valid()
      reads this
    {
      UniqueIds(exercises)
    }

    constructor (initial: seq<UserExercise>)
      requires UniqueIds(initial)
      ensures exercises == initial
      ensures Valid()
    {
      exercises := initial;
    }

    /** Every stored exercise, in stored order. */
    method GetAll() returns (all: seq<UserExercise>)
      ensures all == exercises
      ensures forall i :: 0 <= i < |all| ==> GetExerciseById(all, all[i].id).Success?
    {
      all := exercises;
      forall i | 0 <= i < |all| ensures GetExerciseById(all, all[i].id).Success? {
        assert all[i].id == all[i].id;
      }
    }

    /** Looks `id` up and copies name, description and target from
        `update` into the stored document, which is saved in place; an
        unknown id raises NoSuchElementException and changes nothing. */
    method UpdateExercise(id: string, update: UserExercise) returns (r: Result<UserExercise, ExerciseError>)
      requires Valid()
      modifies this
      ensures Valid()
      ensures r.Failure? <==> IndexOf(old(exercises), id).None?
      ensures r.Failure? ==> r.error == NoSuchElementException(NotFoundMessage(id)) && exercises == old(exercises)
      ensures r.Success? ==>
        var i := IndexOf(old(exercises), id).value;
        && r.value == Updated(old(exercises)[i], update)
        && exercises == old(exercises)[i := r.value]
        && GetExerciseById(exercises, id) == r
    {
      var found := GetExerciseById(exercises, id);
      if found.Failure? {
        return found;
      }
      var i := IndexOf(exercises, id).value;
      var exercise := Updated(found.value, update);
      exercises := exercises[i := exercise];
      assert IndexOf(exercises, id) == Some(i) by {
        forall j | 0 <= j < i ensures exercises[j].id != id {
          assert old(exercises)[j].id != old(exercises)[i].id;
        }
        assert exercises[i].id == id;
      }
      r := Success(exercise);
    }

    /** Deletes the document with id `id`; an unknown id raises a
        RuntimeException and changes nothing. */
    method DeleteExerciseById(id: string) returns (error: Option<ExerciseError>)
      requires Valid()
      modifies this
      ensures Valid()
      ensures error.None? <==> IndexOf(old(exercises), id).Some?
      ensures error.Some? ==> error.value == RuntimeException(NotFoundMessage(id)) && exercises == old(exercises)
      ensures error.None? ==>
        && exercises == Keep(old(exercises), OtherThan(id))
        && |exercises| == |old(exercises)| - 1
        && GetExerciseById(exercises, id).Failure?
        && forall e :: e in old(exercises) && e.id != id ==> e in exercises
    {
      var existing := IndexOf(exercises, id);
      if existing.None? {
        return Some(RuntimeException(NotFoundMessage(id)));
      }
      forall j | 0 <= j < |exercises| && j != existing.value ensures OtherThan(id)(exercises[j]) {
        assert exercises[j].id != exercises[existing.value].id;
      }
      KeepDropsOne(exercises, OtherThan(id), existing.value);
      KeepKeepsUniqueIds(exercises, id);
      exercises := Keep(exercises, OtherThan(id));
      error := None;
    }
  }
}
