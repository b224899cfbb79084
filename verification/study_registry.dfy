/**
 * The study registry of `StudyContext`: the in-memory list of studies, the
 * currently selected study id, the list operations (merge-update, append,
 * filter-remove) and the state left behind by the initial fetch.
 */
module StudyRegistry {
  import opened Wrappers
  import opened Seqs

  datatype Status = Active | Closed | Recruiting

  /**
   * One study record. The id type is a parameter: the context and the main
   * page use numeric ids, the study page compares ids with strings. The `date`
   * field is kept in its textual form.
   */
  datatype Study<Id> = Study(
    id: Id,
    name: string,
    date: string,
    location: string,
    memberCount: int,
    participants: seq<string>,
    description: string,
    createdBy: string,
    status: Status,
    participantCount: int,
    maxParticipants: Option<int>,
    color: string,
    icon: string)

  /**
   * `Partial<StudyData>`: each present field overwrites the study's own.
   * `maxParticipants` is optional in the record, so its patch may set it to
   * `Some(Some(n))` or clear it with `Some(None)`.
   */
  datatype Patch<Id> = Patch(
    id: Option<Id>,
    name: Option<string>,
    date: Option<string>,
    location: Option<string>,
    memberCount: Option<int>,
    participants: Option<seq<string>>,
    description: Option<string>,
    createdBy: Option<string>,
    status: Option<Status>,
    participantCount: Option<int>,
    maxParticipants: Option<Option<int>>,
    color: Option<string>,
    icon: Option<string>)

  /** The patch that changes nothing. */
  function EmptyPatch<Id>(): Patch<Id> {
    Patch(None, None, None, None, None, None, None, None, None, None, None, None, None)
  }

  /** `{ participantCount: n }`. */
  function CountPatch<Id>(n: int): Patch<Id> {
    EmptyPatch().(participantCount := Some(n))
  }

  /** `{ participants: ps }`. */
  function ParticipantsPatch<Id>(ps: seq<string>): Patch<Id> {
    EmptyPatch().(participants := Some(ps))
  }

  /** `{ ...study, ...data }`. */
  function Merge<Id>(s: Study<Id>, d: Patch<Id>): Study<Id> {
    Study(
      d.id.GetOr(s.id),
      d.name.GetOr(s.name),
      d.date.GetOr(s.date),
      d.location.GetOr(s.location),
      d.memberCount.GetOr(s.memberCount),
      d.participants.GetOr(s.participants),
      d.description.GetOr(s.description),
      d.createdBy.GetOr(s.createdBy),
      d.status.GetOr(s.status),
      d.participantCount.GetOr(s.participantCount),
      d.maxParticipants.GetOr(s.maxParticipants),
      d.color.GetOr(s.color),
      d.icon.GetOr(s.icon))
  }

  /** Merging the same patch twice is merging it once; the empty patch is neutral. */
  lemma MergeIdempotent<Id>(s: Study<Id>, d: Patch<Id>)
    ensures Merge(Merge(s, d), d) == Merge(s, d)
    ensures Merge(s, EmptyPatch()) == s
  {
  }

  /**
   * `updateStudy(id, data)`: the list keeps its length and order, entries
   * carrying `id` get `data` merged in, every other entry is untouched.
   */
  function UpdateStudy<Id(==)>(studies: seq<Study<Id>>, id: Id, d: Patch<Id>): (r: seq<Study<Id>>)
    ensures |r| == |studies|
    ensures forall i :: 0 <= i < |r| && studies[i].id != id ==> r[i] == studies[i]
    ensures forall i :: 0 <= i < |r| && studies[i].id == id ==> r[i] == Merge(studies[i], d)
  {
    seq(|studies|, i requires 0 <= i < |studies| =>
      if studies[i].id == id then Merge(studies[i], d) else studies[i])
  }

  /** An update whose id matches no entry is the identity. */
  lemma UpdateOfUnknownId<Id>(studies: seq<Study<Id>>, id: Id, d: Patch<Id>)
    requires forall i :: 0 <= i < |studies| ==> studies[i].id != id
    ensures UpdateStudy(studies, id, d) == studies
  {
  }

  /** Applying the same update twice equals applying it once. */
  lemma UpdateIdempotent<Id>(studies: seq<Study<Id>>, id: Id, d: Patch<Id>)
    ensures UpdateStudy(UpdateStudy(studies, id, d), id, d) == UpdateStudy(studies, id, d)
  {
    var once := UpdateStudy(studies, id, d);
    var twice := UpdateStudy(once, id, d);
    forall i | 0 <= i < |studies|
      ensures twice[i] == once[i]
    {
      if studies[i].id == id {
        MergeIdempotent(studies[i], d);
        if once[i].id == id {
          assert twice[i] == Merge(Merge(studies[i], d), d);
        }
      }
    }
  }

  /** After a participants update, every entry carrying `id` holds exactly those participants. */
  lemma ParticipantsSettled<Id>(studies: seq<Study<Id>>, id: Id, ps: seq<string>)
    ensures forall s :: s in UpdateStudy(studies, id, ParticipantsPatch(ps)) && s.id == id ==> s.participants == ps
  {
    var once := UpdateStudy(studies, id, ParticipantsPatch(ps));
    forall i | 0 <= i < |once| && once[i].id == id
      ensures once[i].participants == ps
    {
    }
  }

  /** `addStudy(data)`: appended at the end, the old list is an unchanged prefix. */
  function AddStudy<Id>(studies: seq<Study<Id>>, data: Study<Id>): (r: seq<Study<Id>>)
    ensures |r| == |studies| + 1
    ensures r[..|studies|] == studies
    ensures r[|studies|] == data
  {
    studies + [data]
  }

  /**
   * `removeStudy(id)`: no entry with `id` remains, every other entry is kept,
   * and the survivors keep their relative order.
   */
  function RemoveStudy<Id(==)>(studies: seq<Study<Id>>, id: Id): (r: seq<Study<Id>>)
    ensures |r| <= |studies|
    ensures forall i :: 0 <= i < |r| ==> r[i].id != id
    ensures forall s :: s in studies && s.id != id ==> s in r
    ensures forall s :: s in r ==> s in studies
    ensures IsSubsequence(r, studies)
    decreases |studies|
  {
    if |studies| == 0 then []
    else
      var rest := RemoveStudy(studies[1..], id);
      if studies[0].id == id then
        SubsequenceSkip(studies[0], rest, studies[1..]);
        assert [studies[0]] + studies[1..] == studies;
        rest
      else
        SubsequenceCons(studies[0], rest, studies[1..]);
        assert [studies[0]] + studies[1..] == studies;
        [studies[0]] + rest
  }

  /** `removeStudy(id)` keeps every other entry exactly as many times as the list holds it. */
  lemma {:induction false} RemoveStudyCounts<Id>(studies: seq<Study<Id>>, id: Id)
    ensures forall s :: multiset(RemoveStudy(studies, id))[s] == if s.id != id then multiset(studies)[s] else 0
    decreases |studies|
  {
    if |studies| > 0 {
      RemoveStudyCounts(studies[1..], id);
      assert [studies[0]] + studies[1..] == studies;
    }
  }

  /** Removing an id that is absent is the identity. */
  lemma {:induction false} RemoveOfAbsentId<Id>(studies: seq<Study<Id>>, id: Id)
    requires forall i :: 0 <= i < |studies| ==> studies[i].id != id
    ensures RemoveStudy(studies, id) == studies
    decreases |studies|
  {
    if |studies| > 0 {
      RemoveOfAbsentId(studies[1..], id);
      assert [studies[0]] + studies[1..] == studies;
    }
  }

  /** `removeStudy` is idempotent. */
  lemma RemoveIdempotent<Id>(studies: seq<Study<Id>>, id: Id)
    ensures RemoveStudy(RemoveStudy(studies, id), id) == RemoveStudy(studies, id)
  {
    RemoveOfAbsentId(RemoveStudy(studies, id), id);
  }

  /** Removing by the id of a study just added undoes the append. */
  lemma {:induction false} RemoveAfterAdd<Id>(studies: seq<Study<Id>>, data: Study<Id>)
    ensures RemoveStudy(AddStudy(studies, data), data.id) == RemoveStudy(studies, data.id)
    decreases |studies|
  {
    if |studies| == 0 {
      assert AddStudy(studies, data) == [data];
    } else {
      assert AddStudy(studies, data)[1..] == AddStudy(studies[1..], data);
      RemoveAfterAdd(studies[1..], data);
    }
  }

  /** `studies.find(s => s.id === id)`: the first entry carrying `id`, if any. */
  function FindById<Id(==)>(studies: seq<Study<Id>>, id: Id): (r: Option<Study<Id>>)
    ensures r.None? <==> forall i :: 0 <= i < |studies| ==> studies[i].id != id
    ensures r.Some? ==> r.value.id == id && r.value in studies
    ensures r.Some? ==> (exists i :: 0 <= i < |studies| && studies[i] == r.value
                                    && forall j :: 0 <= j < i ==> studies[j].id != id)
    decreases |studies|
  {
    if |studies| == 0 then None
    else if studies[0].id == id then Some(studies[0])
    else
      var r := FindById(studies[1..], id);
      assert r.Some? ==> exists i :: 1 <= i < |studies| && studies[i] == r.value
                                    && forall j :: 0 <= j < i ==> studies[j].id != id;
      r
  }

  /** The provider's state: the list and the selected study id. */
  datatype Registry = Registry(studies: seq<Study<int>>, selected: int)

  /** `useState([])` and `useState(0)`. */
  const InitialRegistry := Registry([], 0)

  /** What the `GET /studies` request produced: the decoded list, or any failure. */
  datatype FetchOutcome = Fetched(data: seq<Study<int>>) | FetchFailed

  /**
   * `fetchStudies` applied to the provider state: on success the list is
   * replaced and the first study becomes selected when there is one; on
   * failure both fall back to `[]` and `0`.
   */
  function ApplyFetch(reg: Registry, outcome: FetchOutcome): (r: Registry)
    ensures outcome.FetchFailed? ==> r.studies == [] && r.selected == 0
    ensures outcome.Fetched? ==> r.studies == outcome.data
    ensures outcome.Fetched? && |outcome.data| > 0 ==> r.selected == outcome.data[0].id
    ensures outcome.Fetched? && |outcome.data| == 0 ==> r.selected == reg.selected
  {
    match outcome
    case FetchFailed => Registry([], 0)
    case Fetched(data) =>
      Registry(data, if |data| > 0 then data[0].id else reg.selected)
  }

  /** From the provider's initial state, the selection is the first id or stays 0. */
  lemma FetchFromInitial(outcome: FetchOutcome)
    ensures ApplyFetch(InitialRegistry, outcome).selected ==
      (if outcome.Fetched? && |outcome.data| > 0 then outcome.data[0].id else 0)
  {
  }

  /** `openStudyDetailPopup(id)`: only the selection changes. */
  function OpenStudyDetailPopup(reg: Registry, id: int): (r: Registry)
    ensures r.selected == id
    ensures r.studies == reg.studies
  {
    reg.(selected := id)
  }

  /** The last opened study wins, and the study list is never touched. */
  lemma LastOpenWins(reg: Registry, a: int, b: int)
    ensures OpenStudyDetailPopup(OpenStudyDetailPopup(reg, a), b) == OpenStudyDetailPopup(reg, b)
  {
  }
}
