/**
 * The project schedule page: the project table (a JS object, so its keys keep
 * insertion order), `handleAddProject` with its validation, tech parsing,
 * defaults and repository slug, the `popup` URL guard, and the card helpers
 * `getProjectIcon`, `getProjectColor` and `getStatusText`.
 */
module Schedule {
  import opened Wrappers
  import opened Text

  datatype ProjectStatus = Planning | Development | Testing | Deployed

  /** The status value as the page stores it. */
  function Code(s: ProjectStatus): string {
    match s
    case Planning => "planning"
    case Development => "development"
    case Testing => "testing"
    case Deployed => "deployed"
  }

  datatype Project = Project(
    name: string,
    description: string,
    tech: seq<string>,
    status: ProjectStatus,
    team: seq<string>,
    startDate: string,
    endDate: string,
    progress: int,
    repository: string)

  /** The add-project form; `tech` is the raw comma-separated text. */
  datatype ProjectForm = ProjectForm(
    name: string,
    description: string,
    tech: string,
    status: ProjectStatus,
    startDate: string,
    endDate: string,
    repository: string)

  /** The form the page starts with and returns to after an add. */
  const EmptyProjectForm := ProjectForm("", "", "", Planning, "", "", "")

  /** The team every new project starts with. */
  const NewTeam := ["프로젝트 매니저"]

  /** What the repository slug is appended to. */
  const RepositoryPrefix := "https://github.com/team/"

  /**
   * `projectData`: a record keyed by project id. `order` is the key order
   * `Object.keys` reports, which for these keys is insertion order.
   */
  datatype ProjectTable = ProjectTable(order: seq<string>, data: map<string, Project>)

  /** Every key is listed exactly once, and only keys are listed. */
  ghost predicate WellFormed(t: ProjectTable) {
    && (forall i, j :: 0 <= i < j < |t.order| ==> t.order[i] != t.order[j])
    && (forall k :: k in t.data <==> k in t.order)
  }

  datatype SchedulePage = SchedulePage(
    projects: ProjectTable,
    form: ProjectForm,
    addOpen: bool,
    selected: string,
    popupOpen: bool,
    popupId: Option<string>)

  /** `{...prev, [key]: p}`: a new key goes last, an existing key keeps its place. */
  function Put(t: ProjectTable, key: string, p: Project): (r: ProjectTable)
    ensures r.data == t.data[key := p]
    ensures key in t.data ==> r.order == t.order
    ensures key !in t.data ==> r.order == t.order + [key]
  {
    ProjectTable(if key in t.data then t.order else t.order + [key], t.data[key := p])
  }

  /** Putting a key keeps the table well formed. */
  lemma PutKeepsWellFormed(t: ProjectTable, key: string, p: Project)
    requires WellFormed(t)
    ensures WellFormed(Put(t, key, p))
  {
    var r := Put(t, key, p);
    if key !in t.data {
      assert key !in t.order;
      forall i, j | 0 <= i < j < |r.order|
        ensures r.order[i] != r.order[j]
      {
        if j == |t.order| {
          assert r.order[i] == t.order[i];
        }
      }
    }
  }

  /** A fresh key adds exactly itself to the keys and leaves every other entry alone. */
  lemma PutFreshKey(t: ProjectTable, key: string, p: Project)
    requires key !in t.data
    ensures Put(t, key, p).data.Keys == t.data.Keys + {key}
    ensures forall k :: k in t.data ==> Put(t, key, p).data[k] == t.data[k]
  {
  }

  /** `name.toLowerCase().replace(/\s+/g, '-')`. */
  function Slug(name: string): (r: string)
    ensures |r| <= |name|
    ensures forall i :: 0 <= i < |r| ==> !IsSpace(r[i]) && !('A' <= r[i] <= 'Z')
  {
    var lower := ToLower(name);
    var r := CollapseSpaces(lower, '-');
    CollapseKeepsNoCapitals(lower);
    r
  }

  /** Collapsing whitespace into dashes brings in no capital letter. */
  lemma {:induction false} CollapseKeepsNoCapitals(s: string)
    requires NoCapitals(s)
    ensures NoCapitals(CollapseSpaces(s, '-'))
    decreases |s|
  {
    if |s| > 0 {
      if IsSpace(s[0]) {
        var d := DropSpaces(s);
        assert NoCapitals(d) by {
          forall i | 0 <= i < |d|
            ensures !('A' <= d[i] <= 'Z')
          {
            assert d[i] == s[|s| - |d| + i];
          }
        }
        CollapseKeepsNoCapitals(d);
      } else {
        CollapseKeepsNoCapitals(s[1..]);
      }
    }
  }

  /** A name of lower-case words separated by single spaces slugs to the words joined by dashes. */
  lemma SlugOfSpacedWords(words: seq<string>)
    requires |words| >= 1
    requires forall i :: 0 <= i < |words| ==>
      words[i] != "" && NoCapitals(words[i]) && forall k :: 0 <= k < |words[i]| ==> !IsSpace(words[i][k])
    ensures Slug(Join(words, ' ')) == Join(words, '-')
  {
    NoCapitalsJoin(words, ' ');
    ToLowerOfNoCapitals(Join(words, ' '));
    CollapseOfSpacedWords(words, '-');
  }

  /**
   * The general slug: a lower-case name made of words and whitespace runs of
   * any kind and length, leading and trailing runs included, keeps its words
   * and gets one `-` for every run.
   */
  lemma SlugOfWordsAndRuns(runs: seq<string>, words: seq<string>)
    requires |runs| == |words| + 1
    requires forall i :: 0 <= i < |runs| ==> AllSpace(runs[i])
    requires forall i :: 0 <= i < |words| ==> IsWord(words[i]) && NoCapitals(words[i])
    ensures Slug(Interleave(runs, words)) == Interleave(Dashes(runs, '-'), words)
  {
    NoCapitalsInterleave(runs, words);
    ToLowerOfNoCapitals(Interleave(runs, words));
    CollapseOfWordsAndRuns(runs, words, '-');
  }

  /** Slugging lowers the name first, so a name and its lower-case form slug alike. */
  lemma SlugLowers(name: string)
    ensures Slug(name) == Slug(ToLower(name))
  {
    ToLowerOfNoCapitals(ToLower(name));
  }

  /** Two lower-case words around one whitespace run of any kind and length slug to the words joined by one dash. */
  lemma SlugOfTwoWords(a: string, run: string, b: string)
    requires IsWord(a) && NoCapitals(a) && IsWord(b) && NoCapitals(b)
    requires run != "" && AllSpace(run)
    ensures Slug(a + run + b) == a + "-" + b
  {
    var runs := ["", run, ""];
    var words := [a, b];
    SlugOfWordsAndRuns(runs, words);
    InterleaveCons(runs, words);
    InterleaveCons(runs[1..], words[1..]);
    assert Interleave(runs, words) == a + run + b;
    var ds := Dashes(runs, '-');
    InterleaveCons(ds, words);
    InterleaveCons(ds[1..], words[1..]);
    assert Interleave(ds, words) == a + "-" + b;
  }

  /** A lower-case word after a whitespace run of any kind and length slugs to the word after one dash. */
  lemma SlugOfLeadingRun(run: string, a: string)
    requires IsWord(a) && NoCapitals(a)
    requires run != "" && AllSpace(run)
    ensures Slug(run + a) == "-" + a
  {
    var runs := [run, ""];
    SlugOfWordsAndRuns(runs, [a]);
    InterleaveCons(runs, [a]);
    assert Interleave(runs, [a]) == run + a;
    InterleaveCons(Dashes(runs, '-'), [a]);
    assert Interleave(Dashes(runs, '-'), [a]) == "-" + a;
  }

  /** "My App" slugs to "my-app": capitals are lowered and the space becomes a dash. */
  lemma SlugOfMyApp()
    ensures Slug("My App") == "my-app"
  {
    LowerOfMyApp();
    SlugLowers("My App");
    SlugOfMyAppLowered();
  }

  /** Lower-casing "My App" touches only its two capitals. */
  lemma LowerOfMyApp()
    ensures ToLower("My App") == "my" + " " + "app"
  {
  }

  /** The lower-cased name is two words around one space. */
  lemma SlugOfMyAppLowered()
    ensures Slug("my" + " " + "app") == "my-app"
  {
    SlugOfTwoWords("my", " ", "app");
  }

  /** A run of two spaces becomes one dash. */
  lemma SlugOfDoubleSpace()
    ensures Slug("a" + "  " + "b") == "a-b"
  {
    SlugOfTwoWords("a", "  ", "b");
  }

  /** A tab becomes a dash, like a space. */
  lemma SlugOfTab()
    ensures Slug("a" + "\t" + "b") == "a-b"
  {
    SlugOfTwoWords("a", "\t", "b");
  }

  /** A leading space is not dropped: it becomes a leading dash. */
  lemma SlugOfLeadingSpace()
    ensures Slug(" " + "a") == "-a"
  {
    SlugOfLeadingRun(" ", "a");
  }

  /** The repository field of a new project: the form's value, or the team URL of the name's slug. */
  function Repository(form: ProjectForm): (r: string)
    ensures form.repository != "" ==> r == form.repository
    ensures form.repository == "" ==> r == RepositoryPrefix + Slug(form.name)
    ensures form.repository == "" ==> |r| >= |RepositoryPrefix| && r[..|RepositoryPrefix|] == RepositoryPrefix
    ensures form.repository == "" ==> forall i :: |RepositoryPrefix| <= i < |r| ==> !IsSpace(r[i])
  {
    if form.repository != "" then form.repository else RepositoryPrefix + Slug(form.name)
  }

  /**
   * The project `handleAddProject` builds. `today` and `in90Days` are the
   * `YYYY-MM-DD` texts of now and of now plus 90 days.
   */
  function NewProject(form: ProjectForm, today: string, in90Days: string): (p: Project)
    ensures p.name == form.name && p.description == form.description && p.status == form.status
    ensures p.team == ["프로젝트 매니저"] && p.progress == 0
    ensures p.tech == ParseTags(form.tech)
    ensures form.startDate != "" ==> p.startDate == form.startDate
    ensures form.startDate == "" ==> p.startDate == today
    ensures form.endDate != "" ==> p.endDate == form.endDate
    ensures form.endDate == "" ==> p.endDate == in90Days
    ensures p.repository == Repository(form)
  {
    Project(form.name, form.description, ParseTags(form.tech), form.status, NewTeam,
            if form.startDate != "" then form.startDate else today,
            if form.endDate != "" then form.endDate else in90Days,
            0, Repository(form))
  }

  /** A tech list written as comma-separated clean names is stored as exactly those names. */
  lemma TechRoundTrip(form: ProjectForm, today: string, in90Days: string, tech: seq<string>)
    requires forall i :: 0 <= i < |tech| ==> tech[i] != "" && IsTrimmed(tech[i]) && ',' !in tech[i]
    ensures NewProject(form.(tech := Join(tech, ',')), today, in90Days).tech == tech
  {
    ParseTagsOfJoin(tech);
  }

  /**
   * `handleAddProject`: a name or description that is blank after trimming
   * changes nothing; otherwise the project goes under `projectId` (the text of
   * `Date.now()`), is selected, the modal closes and the form is reset.
   */
  function HandleAddProject(page: SchedulePage, projectId: string, today: string, in90Days: string): (r: SchedulePage)
    ensures IsBlank(page.form.name) || IsBlank(page.form.description) ==> r == page
    ensures !IsBlank(page.form.name) && !IsBlank(page.form.description) ==>
      && r.projects.data == page.projects.data[projectId := NewProject(page.form, today, in90Days)]
      && r.selected == projectId
      && !r.addOpen
      && r.form == EmptyProjectForm
      && r.popupOpen == page.popupOpen && r.popupId == page.popupId
  {
    if IsBlank(page.form.name) || IsBlank(page.form.description) then page
    else
      page.(projects := Put(page.projects, projectId, NewProject(page.form, today, in90Days)),
            form := EmptyProjectForm, addOpen := false, selected := projectId)
  }

  /** With a fresh id, an add brings exactly one new key, listed last, and leaves every other project alone. */
  lemma AddProjectAddsOneKey(page: SchedulePage, projectId: string, today: string, in90Days: string)
    requires WellFormed(page.projects)
    requires projectId !in page.projects.data
    requires !IsBlank(page.form.name) && !IsBlank(page.form.description)
    ensures WellFormed(HandleAddProject(page, projectId, today, in90Days).projects)
    ensures HandleAddProject(page, projectId, today, in90Days).projects.data.Keys == page.projects.data.Keys + {projectId}
    ensures HandleAddProject(page, projectId, today, in90Days).projects.order == page.projects.order + [projectId]
    ensures forall k :: k in page.projects.data ==> HandleAddProject(page, projectId, today, in90Days).projects.data[k] == page.projects.data[k]
  {
    var p := NewProject(page.form, today, in90Days);
    var t := HandleAddProject(page, projectId, today, in90Days).projects;
    assert t == Put(page.projects, projectId, p);
    PutKeepsWellFormed(page.projects, projectId, p);
    PutFreshKey(page.projects, projectId, p);
  }

  /** The `popup` URL parameter opens the detail popup only for a key of the table. */
  function ApplyPopupParam(page: SchedulePage, popup: Option<string>): (r: SchedulePage)
    ensures popup.Some? && popup.value != "" && popup.value in page.projects.data ==>
      r == page.(popupId := popup, popupOpen := true, selected := popup.value)
    ensures !(popup.Some? && popup.value != "" && popup.value in page.projects.data) ==> r == page
  {
    if popup.Some? && popup.value != "" && popup.value in page.projects.data then
      page.(popupId := popup, popupOpen := true, selected := popup.value)
    else page
  }

  /** `closeProjectDetailPopup`: the popup closes and forgets its id; the selection stays. */
  function CloseProjectDetailPopup(page: SchedulePage): (r: SchedulePage)
    ensures !r.popupOpen && r.popupId.None?
    ensures r.(popupOpen := page.popupOpen, popupId := page.popupId) == page
  {
    page.(popupOpen := false, popupId := None)
  }

  /** Opening from the URL and then closing leaves only the selection changed. */
  lemma PopupOpenThenClose(page: SchedulePage, key: string)
    requires key != "" && key in page.projects.data
    requires !page.popupOpen && page.popupId.None?
    ensures CloseProjectDetailPopup(ApplyPopupParam(page, Some(key))) == page.(selected := key)
  {
  }

  /** The first character of a word, or nothing for an empty word (`word[0]` joins as ""). */
  function Initial(w: string): (r: string)
    ensures |r| <= 1
    ensures w != "" ==> r == [w[0]]
  {
    if w == "" then "" else [w[0]]
  }

  function Min(a: int, b: int): int {
    if a <= b then a else b
  }

  /**
   * `getProjectIcon`: with more than one space-separated word, the upper-cased
   * initials of the first two; otherwise the upper-cased first two characters.
   */
  function ProjectIcon(name: string): (r: string)
    ensures |r| <= 2
    ensures forall i :: 0 <= i < |r| ==> !('a' <= r[i] <= 'z')
    ensures ' ' !in name ==> |r| == Min(2, |name|) && forall i :: 0 <= i < |r| ==> r[i] == UpperChar(name[i])
  {
    var words := Split(name, ' ');
    SplitWithoutSep(name, ' ');
    if |words| > 1 then ToUpper(Initial(words[0]) + Initial(words[1]))
    else ToUpper(name[..Min(2, |name|)])
  }

  /**
   * Two or more words separated by single spaces give the capitals of the first
   * two initials; an empty word (from a leading or doubled space) adds nothing,
   * as `undefined` joins as "".
   */
  lemma IconOfWords(words: seq<string>)
    requires |words| >= 2
    requires forall i :: 0 <= i < |words| ==> ' ' !in words[i]
    ensures ProjectIcon(Join(words, ' ')) == ToUpper(Initial(words[0]) + Initial(words[1]))
    ensures words[0] != "" && words[1] != "" ==>
      ProjectIcon(Join(words, ' ')) == [UpperChar(words[0][0]), UpperChar(words[1][0])]
  {
    var name := Join(words, ' ');
    assert Split(name, ' ') == words by {
      SplitOfJoin(words, ' ');
    }
    IconOfSplit(name, words);
    if words[0] != "" && words[1] != "" {
      assert Initial(words[0]) + Initial(words[1]) == [words[0][0], words[1][0]];
    }
  }

  /** The multi-word branch of `getProjectIcon`, read off a known split of the name. */
  lemma IconOfSplit(name: string, words: seq<string>)
    requires Split(name, ' ') == words && |words| > 1
    ensures ProjectIcon(name) == ToUpper(Initial(words[0]) + Initial(words[1]))
  {
  }

  /** " a" splits into "" and "a": the empty first word contributes nothing, so the icon is "A". */
  lemma IconOfLeadingSpace()
    ensures ProjectIcon(" a") == "A"
  {
    assert Join(["", "a"], ' ') == " a";
    IconOfWords(["", "a"]);
  }

  /** "a  b" splits into "a", "" and "b": the icon uses only the first two words, so it is "A". */
  lemma IconOfDoubleSpace()
    ensures ProjectIcon("a  b") == "A"
  {
    assert Join(["a", "", "b"], ' ') == "a  b";
    IconOfWords(["a", "", "b"]);
  }

  /** The six card gradients, in the order `getProjectColor` cycles through them. */
  const ProjectColors := [
    "from-blue-500 to-purple-600",
    "from-purple-500 to-pink-600",
    "from-yellow-500 to-orange-600",
    "from-green-500 to-blue-600",
    "from-red-500 to-purple-600",
    "from-indigo-500 to-blue-600"]

  /** `getProjectColor(index)`: always one of the six gradients, the first six in order. */
  function ProjectColor(index: nat): (r: string)
    ensures r in ProjectColors
    ensures index < |ProjectColors| ==> r == ProjectColors[index]
  {
    ProjectColors[index % |ProjectColors|]
  }

  /** Colours repeat every six projects. */
  lemma ColorPeriodic(index: nat, k: nat)
    ensures ProjectColor(index + 6 * k) == ProjectColor(index)
  {
    ShiftBySixes(index, k);
  }

  /** Adding whole multiples of six leaves the remainder by six unchanged. */
  lemma {:induction false} ShiftBySixes(index: nat, k: nat)
    ensures (index + 6 * k) % 6 == index % 6
    decreases k
  {
    if k > 0 {
      ShiftBySixes(index, k - 1);
      assert index + 6 * k == (index + 6 * (k - 1)) + 6;
    }
  }

  /** `Object.keys(projectData).indexOf(key)` for a key that is present. */
  function IndexOf(order: seq<string>, key: string): (r: nat)
    requires key in order
    ensures r < |order| && order[r] == key
    ensures key !in order[..r]
    decreases |order|
  {
    if order[0] == key then 0
    else
      var k := IndexOf(order[1..], key);
      assert order[1..][..k] == order[1..k + 1];
      assert order[..k + 1] == [order[0]] + order[1..k + 1];
      k + 1
  }

  /** The card colour of a listed project. */
  function ColorOf(t: ProjectTable, key: string): (r: string)
    requires key in t.order
    ensures r in ProjectColors
  {
    ProjectColor(IndexOf(t.order, key))
  }

  /** A project added to a table keeps the colour of its position when later projects are added. */
  lemma ColorStableUnderPut(t: ProjectTable, key: string, newKey: string, p: Project)
    requires WellFormed(t)
    requires key in t.order
    ensures key in Put(t, newKey, p).order
    ensures ColorOf(Put(t, newKey, p), key) == ColorOf(t, key)
  {
    var r := Put(t, newKey, p);
    if newKey !in t.data {
      var i := IndexOf(t.order, key);
      assert r.order[..i] == t.order[..i];
      assert r.order[i] == key;
      IndexOfFirst(r.order, key, i);
    }
  }

  /** The position of a key is the first place it occurs. */
  lemma {:induction false} IndexOfFirst(order: seq<string>, key: string, i: nat)
    requires i < |order| && order[i] == key && key !in order[..i]
    ensures IndexOf(order, key) == i
    decreases i
  {
    if i > 0 {
      assert order[0] in order[..i];
      assert order[0] != key;
      assert order[1..][..i - 1] == order[1..i];
      assert order[..i] == [order[0]] + order[1..i];
      IndexOfFirst(order[1..], key, i - 1);
    }
  }

  /** `getStatusText`: the four status codes get their Korean labels; anything else is shown as it is. */
  function StatusText(status: string): (r: string)
    ensures status == "development" ==> r == "개발중"
    ensures status == "testing" ==> r == "테스트"
    ensures status == "planning" ==> r == "기획"
    ensures status == "deployed" ==> r == "배포"
    ensures status !in {"development", "testing", "planning", "deployed"} ==> r == status
  {
    match status
    case "development" => "개발중"
    case "testing" => "테스트"
    case "planning" => "기획"
    case "deployed" => "배포"
    case _ => status
  }

  /** Labelling a label changes nothing more. */
  lemma StatusTextIdempotent(status: string)
    ensures StatusText(StatusText(status)) == StatusText(status)
  {
  }

  /** Different statuses get different labels. */
  lemma StatusLabelsDistinct(a: ProjectStatus, b: ProjectStatus)
    requires a != b
    ensures StatusText(Code(a)) != StatusText(Code(b))
  {
  }
}
