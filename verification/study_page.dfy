/**
 * The study page: its own attendance handler (which records the pressed
 * button and hands the roster back unchanged), the add-study form, the
 * current-study choice and the `popup` URL guard. Ids on this page are
 * compared as strings.
 */
module StudyPage {
  import opened Wrappers
  import opened Text
  import opened StudyRegistry
  import Attendance

  type Action = Attendance.Action

  /** The add-study form. */
  datatype StudyForm = StudyForm(
    studyName: string,
    description: string,
    time: string,
    location: string,
    icon: string,
    color: string,
    status: Status)

  /** The form the page starts with and returns to after an add. */
  const DefaultStudyForm := StudyForm("", "", "", "", "JS", "from-blue-500 to-blue-600", Recruiting)

  datatype StudyPageState = StudyPageState(
    studies: seq<Study<string>>,
    selected: string,
    selections: map<string, Action>,
    form: StudyForm,
    addOpen: bool,
    popupOpen: bool,
    popupId: Option<string>)

  /** No two studies share an id. */
  predicate UniqueIds(studies: seq<Study<string>>) {
    forall i, j :: 0 <= i < j < |studies| ==> studies[i].id != studies[j].id
  }

  /**
   * `handleAttendance(studyId, action)`: an unknown id changes nothing;
   * otherwise the pressed action is recorded whatever was there before, and
   * the study's own participant list is written back through `updateStudy`.
   */
  function HandleAttendance(st: StudyPageState, studyId: string, action: Action): (r: StudyPageState)
    ensures FindById(st.studies, studyId).None? ==> r == st
    ensures FindById(st.studies, studyId).Some? ==>
      && r.selections == st.selections[studyId := action]
      && r.studies == UpdateStudy(st.studies, studyId, ParticipantsPatch(FindById(st.studies, studyId).value.participants))
      && r.(selections := st.selections, studies := st.studies) == st
  {
    match FindById(st.studies, studyId)
    case None => st
    case Some(study) =>
      st.(selections := st.selections[studyId := action],
          studies := UpdateStudy(st.studies, studyId, ParticipantsPatch(study.participants)))
  }

  /** With unique ids, attendance never changes the studies: the computed count is discarded. */
  lemma AttendanceKeepsStudies(st: StudyPageState, studyId: string, action: Action)
    requires UniqueIds(st.studies)
    ensures HandleAttendance(st, studyId, action).studies == st.studies
  {
    var found := FindById(st.studies, studyId);
    if found.Some? {
      var r := HandleAttendance(st, studyId, action).studies;
      forall i | 0 <= i < |st.studies|
        ensures r[i] == st.studies[i]
      {
        if st.studies[i].id == studyId {
          var k :| 0 <= k < |st.studies| && st.studies[k] == found.value;
          assert st.studies[k].id == studyId;
          assert k == i;
        }
      }
    }
  }

  /** A press that would record what is already recorded and write back what is already there changes nothing. */
  lemma AttendanceFixpoint(st: StudyPageState, studyId: string, action: Action)
    requires FindById(st.studies, studyId).Some?
    requires studyId in st.selections && st.selections[studyId] == action
    requires UpdateStudy(st.studies, studyId, ParticipantsPatch(FindById(st.studies, studyId).value.participants)) == st.studies
    ensures HandleAttendance(st, studyId, action) == st
  {
    assert st.selections[studyId := action] == st.selections;
  }

  /** Pressing the same button again keeps the selection: there is no toggle back to unset. */
  lemma PressingTwiceKeepsSelection(st: StudyPageState, studyId: string, action: Action)
    requires FindById(st.studies, studyId).Some?
    ensures var once := HandleAttendance(st, studyId, action);
      && studyId in once.selections && once.selections[studyId] == action
      && HandleAttendance(once, studyId, action) == once
  {
    var ps := FindById(st.studies, studyId).value.participants;
    var once := HandleAttendance(st, studyId, action);
    ParticipantsSettled(st.studies, studyId, ps);
    assert FindById(once.studies, studyId).value.participants == ps;
    UpdateIdempotent(st.studies, studyId, ParticipantsPatch(ps));
    AttendanceFixpoint(once, studyId, action);
  }

  /**
   * `handleAddStudy`: a study name or description that is blank after
   * trimming changes nothing; otherwise the form is reset and the modal closes,
   * and the study list stays as it was because the page never adds the study.
   */
  function HandleAddStudy(st: StudyPageState): (r: StudyPageState)
    ensures IsBlank(st.form.studyName) || IsBlank(st.form.description) ==> r == st
    ensures !IsBlank(st.form.studyName) && !IsBlank(st.form.description) ==>
      && r.studies == st.studies
      && r.form == DefaultStudyForm
      && !r.addOpen
      && r.(form := st.form, addOpen := st.addOpen) == st
  {
    if IsBlank(st.form.studyName) || IsBlank(st.form.description) then st
    else st.(form := DefaultStudyForm, addOpen := false)
  }

  /** A whitespace-only study name is refused. */
  lemma WhitespaceNameRefused(st: StudyPageState)
    requires AllSpace(st.form.studyName)
    ensures HandleAddStudy(st) == st
  {
    BlankIffAllSpace(st.form.studyName);
  }

  /** `currentStudy`: the study with the selected id, else the first study, else none. */
  function CurrentStudy(studies: seq<Study<string>>, selected: string): (r: Option<Study<string>>)
    ensures r.None? <==> |studies| == 0
    ensures r.Some? ==> r.value in studies
    ensures r.Some? && r.value.id != selected ==> r.value == studies[0] && forall i :: 0 <= i < |studies| ==> studies[i].id != selected
    ensures (exists i :: 0 <= i < |studies| && studies[i].id == selected) ==> r.Some? && r.value.id == selected
  {
    match FindById(studies, selected)
    case Some(s) => Some(s)
    case None => if |studies| == 0 then None else Some(studies[0])
  }

  /** The `popup` URL parameter opens the detail popup only for the id of a listed study. */
  function ApplyPopupParam(st: StudyPageState, popup: Option<string>): (r: StudyPageState)
    ensures popup.Some? && popup.value != "" && FindById(st.studies, popup.value).Some? ==>
      r == st.(popupId := popup, popupOpen := true, selected := popup.value)
    ensures popup.None? || popup.value == "" || (forall i :: 0 <= i < |st.studies| ==> st.studies[i].id != popup.value) ==>
      r == st
  {
    if popup.Some? && popup.value != "" && FindById(st.studies, popup.value).Some? then
      st.(popupId := popup, popupOpen := true, selected := popup.value)
    else st
  }

  /** After the popup opens from the URL, the current study is the one it names. */
  lemma PopupSelectsCurrent(st: StudyPageState, key: string)
    requires key != ""
    requires exists i :: 0 <= i < |st.studies| && st.studies[i].id == key
    ensures CurrentStudy(ApplyPopupParam(st, Some(key)).studies, ApplyPopupParam(st, Some(key)).selected).value.id == key
  {
  }

  /** `closeStudyDetailPopup`: the popup closes and forgets its id; the selection stays. */
  function CloseStudyDetailPopup(st: StudyPageState): (r: StudyPageState)
    ensures !r.popupOpen && r.popupId.None?
    ensures r.(popupOpen := st.popupOpen, popupId := st.popupId) == st
  {
    st.(popupOpen := false, popupId := None)
  }

  /** The form is back at its blank default after an add, so adding again at once changes nothing. */
  lemma AddStudyTwiceAddsOnce(st: StudyPageState)
    ensures HandleAddStudy(HandleAddStudy(st)) == HandleAddStudy(st)
  {
    BlankIffAllSpace("");
  }

  /** Closing a popup the URL opened keeps the study it selected and leaves the popup as a plain close would. */
  lemma PopupOpenThenClose(st: StudyPageState, key: string)
    requires key != ""
    requires exists i :: 0 <= i < |st.studies| && st.studies[i].id == key
    ensures CloseStudyDetailPopup(ApplyPopupParam(st, Some(key))) == CloseStudyDetailPopup(st).(selected := key)
  {
  }
}
