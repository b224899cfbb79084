/**
 * The attendance toggle of the main page (`handleAttendance`), the selection
 * map seeded from the user's joined studies, and the date lookup behind the
 * calendar markers. Remote calls are not performed: the toggle returns the
 * one `join`/`unjoin` request it would issue.
 */
module Attendance {
  import opened Wrappers
  import opened StudyRegistry

  /** The two buttons, `'attend' | 'skip'`. */
  datatype Action = Attend | Skip

  /** The requests `handleJoin` and `handleUnjoin` send for a study id. */
  datatype Remote = Join(id: int) | Unjoin(id: int)

  /** The remote call a toggle issues, without its target. */
  datatype RemoteKind = JoinCall | UnjoinCall

  /**
   * Selections keyed by study id. A stored `None` is the `null` written back
   * by an "off" toggle; a missing key reads as `undefined`. The handler treats
   * both alike, and `SelectionOf` folds them together.
   */
  type Selections = map<int, Option<Action>>

  /** `userSelections[studyId]`, with `undefined` read as unset. */
  function SelectionOf(sel: Selections, id: int): Option<Action> {
    if id in sel then sel[id] else None
  }

  /** The main page's slice of state that a toggle touches. */
  datatype MainPage = MainPage(studies: seq<Study<int>>, selections: Selections)

  /** The result of one toggle: the new state and the request issued, if any. */
  datatype Toggled = Toggled(page: MainPage, remote: Option<Remote>)

  /** `study.maxParticipants || 50`: an absent or zero maximum falls back to 50. */
  function Cap(maxParticipants: Option<int>): (cap: int)
    ensures maxParticipants.None? ==> cap == 50
    ensures maxParticipants.Some? && maxParticipants.value == 0 ==> cap == 50
    ensures maxParticipants.Some? && maxParticipants.value != 0 ==> cap == maxParticipants.value
  {
    match maxParticipants
    case None => 50
    case Some(m) => if m == 0 then 50 else m
  }

  function Min(a: int, b: int): int { if a <= b then a else b }

  function Max(a: int, b: int): int { if a >= b then a else b }

  /** The per-study outcome of pressing a button: new selection, new count, request kind. */
  datatype StepResult = StepResult(next: Option<Action>, count: int, call: Option<RemoteKind>)

  /**
   * The body of `handleAttendance` once the study is found, for current
   * selection `cur`, pressed button `action`, count `n` and cap `cap`. Each
   * case of the on/off rules is stated separately.
   */
  function Step(cur: Option<Action>, action: Action, n: int, cap: int): (r: StepResult)
    // Attend from unset: clamped increment, one join.
    ensures cur.None? && action == Attend ==> r == StepResult(Some(Attend), Min(n + 1, cap), Some(JoinCall))
    // Attend from skip: join, but the count is left alone.
    ensures cur == Some(Skip) && action == Attend ==> r == StepResult(Some(Attend), n, Some(JoinCall))
    // Attend again: off, floored decrement, one unjoin.
    ensures cur == Some(Attend) && action == Attend ==> r == StepResult(None, Max(n - 1, 0), Some(UnjoinCall))
    // Skip from attend: floored decrement, one unjoin.
    ensures cur == Some(Attend) && action == Skip ==> r == StepResult(Some(Skip), Max(n - 1, 0), Some(UnjoinCall))
    // Skip from unset: count unchanged, one unjoin.
    ensures cur.None? && action == Skip ==> r == StepResult(Some(Skip), n, Some(UnjoinCall))
    // Skip again: off, count unchanged, no request at all.
    ensures cur == Some(Skip) && action == Skip ==> r == StepResult(None, n, None)
  {
    if cur == Some(action) then
      if action == Attend then StepResult(None, Max(n - 1, 0), Some(UnjoinCall))
      else StepResult(None, n, None)
    else if action == Attend then
      StepResult(Some(Attend), if cur != Some(Skip) then Min(n + 1, cap) else n, Some(JoinCall))
    else
      StepResult(Some(Skip), if cur == Some(Attend) then Max(n - 1, 0) else n, Some(UnjoinCall))
  }

  /** The request carrying the study id. */
  function ToRemote(kind: RemoteKind, id: int): Remote {
    match kind
    case JoinCall => Join(id)
    case UnjoinCall => Unjoin(id)
  }

  /**
   * `handleAttendance(studyId, action)`. An unknown id changes nothing and
   * issues nothing; otherwise only `userSelections[studyId]` and the
   * `participantCount` of the entries carrying that id change, and the
   * request issued is the one `Step` prescribes for the first such entry.
   */
  function HandleAttendance(p: MainPage, studyId: int, action: Action): (r: Toggled)
    ensures FindById(p.studies, studyId).None? ==> r == Toggled(p, None)
    ensures FindById(p.studies, studyId).Some? ==>
      var study := FindById(p.studies, studyId).value;
      var step := Step(SelectionOf(p.selections, studyId), action, study.participantCount, Cap(study.maxParticipants));
      && r.page.selections == p.selections[studyId := step.next]
      && |r.page.studies| == |p.studies|
      && (forall i :: 0 <= i < |p.studies| && p.studies[i].id != studyId ==> r.page.studies[i] == p.studies[i])
      && (forall i :: 0 <= i < |p.studies| && p.studies[i].id == studyId ==>
            r.page.studies[i] == p.studies[i].(participantCount := step.count))
      && (step.call.None? ==> r.remote.None?)
      && (step.call.Some? ==> r.remote == Some(ToRemote(step.call.value, studyId)))
  {
    match FindById(p.studies, studyId)
    case None => Toggled(p, None)
    case Some(study) =>
      var step := Step(SelectionOf(p.selections, studyId), action, study.participantCount, Cap(study.maxParticipants));
      var remote := if step.call.Some? then Some(ToRemote(step.call.value, study.id)) else None;
      Toggled(
        MainPage(UpdateStudy(p.studies, studyId, CountPatch(step.count)), p.selections[studyId := step.next]),
        remote)
  }

  /** A count within `0..cap` stays within `0..cap` whatever is pressed. */
  lemma StepKeepsCountInRange(cur: Option<Action>, action: Action, n: int, cap: int)
    requires 0 <= n <= cap
    ensures 0 <= Step(cur, action, n, cap).count <= cap
  {
  }

  /**
   * The request agrees with the new selection: a join exactly when the user
   * ends up attending, an unjoin otherwise, except that clearing a skip sends
   * nothing.
   */
  lemma StepRequestMatchesSelection(cur: Option<Action>, action: Action, n: int, cap: int)
    ensures Step(cur, action, n, cap).call == Some(JoinCall) <==> Step(cur, action, n, cap).next == Some(Attend)
    ensures Step(cur, action, n, cap).call.None? <==> (cur == Some(Skip) && action == Skip)
    ensures Step(cur, action, n, cap).next == (if cur == Some(action) then None else Some(action))
  {
  }

  /** Pressing "attend" twice from unset below the cap restores the count and sends join, then unjoin. */
  lemma AttendTwiceRestores(n: int, cap: int)
    requires 0 <= n < cap
    ensures var first := Step(None, Attend, n, cap);
            var second := Step(first.next, Attend, first.count, cap);
            && first.call == Some(JoinCall) && second.call == Some(UnjoinCall)
            && second.next.None? && second.count == n
  {
  }

  /** At a full study the displayed count does not move, yet the join is still sent. */
  lemma AttendAtCapStillJoins(n: int, cap: int)
    requires n >= cap
    ensures Step(None, Attend, n, cap) == StepResult(Some(Attend), cap, Some(JoinCall))
  {
  }

  /**
   * Skip then attend from unset leaves the user attending with the count
   * unchanged: unlike a direct attend, the attendee is never counted.
   */
  lemma SkipThenAttendUncounted(n: int, cap: int)
    requires 0 <= n < cap
    ensures var first := Step(None, Skip, n, cap);
            var second := Step(first.next, Attend, first.count, cap);
            && second.next == Some(Attend) && second.count == n
            && Step(None, Attend, n, cap).count == n + 1
  {
  }

  /** With unique ids a toggle changes at most one study, and only its count. */
  lemma ToggleTouchesOneStudy(p: MainPage, studyId: int, action: Action, i: nat)
    requires i < |p.studies|
    requires forall a, b :: 0 <= a < b < |p.studies| ==> p.studies[a].id != p.studies[b].id
    ensures var q := HandleAttendance(p, studyId, action).page;
            && |q.studies| == |p.studies|
            && (p.studies[i].id != studyId ==> q.studies[i] == p.studies[i])
            && (p.studies[i].id == studyId ==>
                  q.studies[i] == p.studies[i].(participantCount := q.studies[i].participantCount))
  {
  }

  /** Every study's count lies between 0 and its cap (`maxParticipants || 50`). */
  predicate CountsInRange(studies: seq<Study<int>>) {
    forall i :: 0 <= i < |studies| ==> 0 <= studies[i].participantCount <= Cap(studies[i].maxParticipants)
  }

  /**
   * With unique ids a toggle keeps every count within its cap: in particular a
   * study without a maximum never shows more than 50.
   */
  lemma ToggleKeepsCountsInRange(p: MainPage, studyId: int, action: Action)
    requires forall a, b :: 0 <= a < b < |p.studies| ==> p.studies[a].id != p.studies[b].id
    requires CountsInRange(p.studies)
    ensures CountsInRange(HandleAttendance(p, studyId, action).page.studies)
  {
    var found := FindById(p.studies, studyId);
    if found.Some? {
      var study := found.value;
      StepKeepsCountInRange(SelectionOf(p.selections, studyId), action, study.participantCount, Cap(study.maxParticipants));
      var q := HandleAttendance(p, studyId, action).page.studies;
      forall i | 0 <= i < |q|
        ensures 0 <= q[i].participantCount <= Cap(q[i].maxParticipants)
      {
        if p.studies[i].id == studyId {
          var k :| 0 <= k < |p.studies| && p.studies[k] == study;
          assert k == i;
        }
      }
    }
  }

  /**
   * The selections seeded when a logged-in user has joined studies: the map
   * is replaced wholesale by `id -> attend` for every joined id; otherwise the
   * previous map is kept.
   */
  function InitialSelections(loggedIn: bool, joined: seq<int>, prev: Selections): (r: Selections)
    ensures loggedIn && |joined| > 0 ==> r.Keys == (set j | j in joined) && forall k :: k in r ==> r[k] == Some(Attend)
    ensures !(loggedIn && |joined| > 0) ==> r == prev
  {
    if loggedIn && |joined| > 0 then map j | j in joined :: Some(Attend) else prev
  }

  /** After seeding, exactly the joined studies read as attending; every other study reads unset. */
  lemma SeededSelectionLookup(joined: seq<int>, prev: Selections, id: int)
    requires |joined| > 0
    ensures SelectionOf(InitialSelections(true, joined, prev), id) == (if id in joined then Some(Attend) else None)
  {
  }

  /** The hard-coded day keys that `getStudiesForDate` treats as study days. */
  const StudyDates: seq<string> := [
    "2024-12-25", "2024-12-26", "2024-12-28", "2024-12-30",
    "2024-01-02", "2024-01-05", "2024-01-08", "2024-01-12"]

  /**
   * `getStudiesForDate(date)` given the date's `YYYY-MM-DD` key: every study
   * when the key is one of the fixed days, none otherwise.
   */
  function StudiesForDate(studies: seq<Study<int>>, dateKey: string): (r: seq<Study<int>>)
    ensures dateKey in StudyDates ==> r == studies
    ensures dateKey !in StudyDates ==> r == []
  {
    if dateKey in StudyDates then studies else []
  }

  /** `hasStudyOnDate(date)`: the key is a fixed study day and there is at least one study. */
  function HasStudyOnDate(studies: seq<Study<int>>, dateKey: string): (b: bool)
    ensures b <==> dateKey in StudyDates && |studies| > 0
  {
    |StudiesForDate(studies, dateKey)| > 0
  }
}
