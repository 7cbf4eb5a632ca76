/** The default-exercise service: read-only listing and lookup by id over
    the catalogue of built-in exercises. */
module DefaultExerciseService {
  import opened Wrappers
  import opened Lookup

  /** A built-in exercise; the text fields hold lists of paragraphs. */
  datatype DefaultExercise = DefaultExercise(
    id: string,
    name: Option<string>,
    target: Option<string>,
    description: seq<string>,
    instructions: seq<string>,
    image: seq<string>,
    advices: seq<string>,
    video: Option<string>)

  datatype CatalogueError = NoSuchElementException(message: string)

  predicate HasId(e: DefaultExercise, id: string) {
    e.id == id
  }

  /** Every catalogue entry, in stored order; each is reachable by its id. */
  function GetAll(catalogue: seq<DefaultExercise>): (all: seq<DefaultExercise>)
    ensures |all| == |catalogue| && forall i :: 0 <= i < |all| ==> all[i] == catalogue[i]
    ensures forall i :: 0 <= i < |all| ==> GetExerciseById(catalogue, all[i].id).Success?
  {
    assert forall i :: 0 <= i < |catalogue| ==> HasId(catalogue[i], catalogue[i].id);
    catalogue
  }

  /** The first catalogue entry whose id equals `id`, or the
      NoSuchElementException naming the id. */
  function GetExerciseById(catalogue: seq<DefaultExercise>, id: string): (r: Result<DefaultExercise, CatalogueError>)
    ensures r.Success? <==> exists i :: 0 <= i < |catalogue| && catalogue[i].id == id
    ensures r.Success? ==>
      exists i :: (&& 0 <= i < |catalogue| && catalogue[i] == r.value && r.value.id == id
                   && forall j :: 0 <= j < i ==> catalogue[j].id != id)
    ensures r.Failure? ==> r.error == NoSuchElementException("Exercise not found with id: " + id)
  {
    match FirstIndex(catalogue, (e: DefaultExercise) => HasId(e, id))
    case Some(i) => Success(catalogue[i])
    case None => Failure(NoSuchElementException("Exercise not found with id: " + id))
  }

  /** Every entry of the catalogue is found by its own id, and with unique
      ids the entry found is that one. */
  lemma {:induction false} EveryEntryFound(catalogue: seq<DefaultExercise>, k: nat)
    requires k < |catalogue|
    requires forall i, j :: 0 <= i < j < |catalogue| ==> catalogue[i].id != catalogue[j].id
    ensures GetExerciseById(catalogue, catalogue[k].id) == Success(catalogue[k])
  {
    var r := GetExerciseById(catalogue, catalogue[k].id);
    var i :| 0 <= i < |catalogue| && catalogue[i] == r.value && r.value.id == catalogue[k].id
      && forall j :: 0 <= j < i ==> catalogue[j].id != catalogue[k].id;
  }
}
