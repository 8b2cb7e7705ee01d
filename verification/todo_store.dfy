/**
 * The task store of the to-do list: an ordered sequence of tasks with
 * validated insertion, deletion by id, a single-task edit mode, committing
 * an edit, and a case-insensitive search view.
 *
 * The clock is not read here: the id a new task receives (the current time
 * in milliseconds) and the current calendar day are parameters. Raising an
 * alert becomes a returned error.
 */
module TodoStore {
  import opened Wrappers
  import opened JsString
  import opened Calendar
  import opened Sequences

  /** One entry of the list; `isEditing` marks the entry shown with edit fields. */
  datatype Task = Task(id: int, text: string, date: string, isEditing: bool)

  /** The two alerts `addTask` can raise instead of adding. */
  datatype AddError = InvalidLength | PastDate

  /** Two tasks, in list order, carry different ids. */
  const IdsDiffer: (Task, Task) -> bool := (a: Task, b: Task) => a.id != b.id
  /** Two tasks, in list order, are not both in edit mode. */
  const NotBothEditing: (Task, Task) -> bool := (a: Task, b: Task) => !(a.isEditing && b.isEditing)

  /** No id occurs twice: what ids taken from a millisecond clock are meant to guarantee. */
  predicate UniqueIds(s: seq<Task>)
  {
    Pairwise(s, IdsDiffer)
  }

  /** At most one task shows its edit fields. */
  predicate AtMostOneEditing(s: seq<Task>)
  {
    Pairwise(s, NotBothEditing)
  }

  const MinTextLength: nat := 3
  const MaxTextLength: nat := 255
  /** Search terms shorter than this show every task. */
  const MinSearchLength: nat := 2

  // ---------------------------------------------------------------------
  // Adding

  /** `new Date(date) < today's midnight`, guarded by `date` being non-empty. */
  predicate IsPastDate(date: string, today: Day)
    ensures IsPastDate(date, today) ==>
      && ParseIsoDate(date).Some? && Before(ParseIsoDate(date).value, today)
      && FormatIsoDate(ParseIsoDate(date).value) == date
  {
    && date != ""
    && match ParseIsoDate(date)
       case Some(d) => FormatParse(date); Before(d, today)
       case None => false
  }

  /** The alert `addTask` raises for this input, if any. */
  function CheckNewTask(text: string, date: string, today: Day): (r: Option<AddError>)
    ensures r == Some(InvalidLength) <==> !(MinTextLength <= Utf16Length(Trim(text)) <= MaxTextLength)
    ensures r.None? <==> MinTextLength <= Utf16Length(Trim(text)) <= MaxTextLength && !IsPastDate(date, today)
  {
    var trimmed := Trim(text);
    if Utf16Length(trimmed) < MinTextLength || Utf16Length(trimmed) > MaxTextLength then Some(InvalidLength)
    else if IsPastDate(date, today) then Some(PastDate)
    else None
  }

  /** The record `addTask` appends once the input passes the checks. */
  function NewTask(id: int, text: string, date: string): (t: Task)
    ensures t.id == id && t.date == date && !t.isEditing
    ensures Trimmed(t.text) && |t.text| <= |text|
  {
    Task(id, Trim(text), date, false)
  }

  // ---------------------------------------------------------------------
  // Deleting

  function OtherId(id: int): Task -> bool
  {
    (t: Task) => t.id != id
  }

  /** The tasks whose id is not `id`, in order. */
  function WithoutId(s: seq<Task>, id: int): (r: seq<Task>)
    ensures forall i :: 0 <= i < |r| ==> r[i].id != id
    ensures IsSubsequence(r, s)
  {
    FilterAllKept(s, OtherId(id));
    FilterIsSubsequence(s, OtherId(id));
    Filter(s, OtherId(id))
  }

  // ---------------------------------------------------------------------
  // Edit mode

  /** Every task with its edit flag set exactly when its id is `id`; nothing else differs. */
  function EditMode(s: seq<Task>, id: int): (r: seq<Task>)
    ensures |r| == |s|
    ensures forall i :: 0 <= i < |s| ==>
      && r[i].id == s[i].id && r[i].text == s[i].text && r[i].date == s[i].date
      && r[i].isEditing == (s[i].id == id)
  {
    if s == [] then [] else [s[0].(isEditing := s[0].id == id)] + EditMode(s[1..], id)
  }

  // ---------------------------------------------------------------------
  // Committing an edit

  /** The position of the first task whose id is `id`. */
  function IndexOf(s: seq<Task>, id: int): (r: Option<nat>)
    ensures r.Some? ==> r.value < |s| && s[r.value].id == id && forall j :: 0 <= j < r.value ==> s[j].id != id
    ensures r.None? ==> forall j :: 0 <= j < |s| ==> s[j].id != id
  {
    if s == [] then None
    else if s[0].id == id then Some(0)
    else match IndexOf(s[1..], id)
      case None => None
      case Some(k) => Some(k + 1)
  }

  /** `Array.prototype.find` by id, as a linear search. */
  method FindFirst(s: seq<Task>, id: int) returns (r: Option<nat>)
    ensures r == IndexOf(s, id)
  {
    var i := 0;
    while i < |s|
      invariant 0 <= i <= |s|
      invariant forall j :: 0 <= j < i ==> s[j].id != id
    {
      if s[i].id == id {
        return Some(i);
      }
      i := i + 1;
    }
    return None;
  }

  /** The first task with id `id` gets the trimmed text, the new date and leaves edit mode. */
  function ApplyEdit(s: seq<Task>, id: int, newText: string, newDate: string): (r: seq<Task>)
    ensures |r| == |s|
    ensures forall i :: 0 <= i < |s| ==> r[i].id == s[i].id
    ensures forall i :: 0 <= i < |s| && r[i] != s[i] ==> IndexOf(s, id) == Some(i)
  {
    match IndexOf(s, id)
    case None => s
    case Some(k) => s[k := s[k].(text := Trim(newText), date := newDate, isEditing := false)]
  }

  // ---------------------------------------------------------------------
  // Search view

  /** The task's lower-cased text contains the lower-cased term. */
  predicate MatchesSearch(t: Task, term: string): (b: bool)
    ensures b <==> exists i :: OccursAt(ToLower(t.text), ToLower(term), i)
  {
    var text, needle := ToLower(t.text), ToLower(term);
    IncludesIff(text, needle);
    assert Includes(text, needle) <==> exists i :: OccursAt(ToLower(t.text), ToLower(term), i);
    Includes(text, needle)
  }

  function SearchFilter(term: string): Task -> bool
  {
    (t: Task) => MatchesSearch(t, term)
  }

  /** What the `getFilteredTasks` getter returns for the search term `term`. */
  function Filtered(s: seq<Task>, term: string): (r: seq<Task>)
    ensures IsSubsequence(r, s)
    ensures Utf16Length(term) < MinSearchLength ==> r == s
  {
    if Utf16Length(term) < MinSearchLength then
      SubsequenceReflexive(s);
      s
    else
      FilterIsSubsequence(s, SearchFilter(term));
      Filter(s, SearchFilter(term))
  }

  // ---------------------------------------------------------------------
  // The store object

  class Todo {
    /** The tasks in insertion order. */
    var tasks: seq<Task>
    /** The live search term, assigned by the search box. */
    var searchTerm: string
    /** The task list as last written to the browser's storage. */
    ghost var stored: seq<Task>

    /** The store right after `loaded` was read back from storage. */
    constructor (loaded: seq<Task>)
      ensures tasks == loaded && searchTerm == "" && stored == loaded
    {
      tasks := loaded;
      searchTerm := "";
      stored := loaded;
    }

    /** Validates, then appends a task with id `now` and saves; an error leaves everything as it was. */
    method AddTask(text: string, date: string, now: int, today: Day) returns (r: Option<AddError>)
      modifies this
      ensures r == CheckNewTask(text, date, today)
      ensures r.None? ==> tasks == old(tasks) + [NewTask(now, text, date)] && stored == tasks
      ensures r.Some? ==> tasks == old(tasks) && stored == old(stored)
      ensures searchTerm == old(searchTerm)
    {
      var trimmed := Trim(text);
      if Utf16Length(trimmed) < MinTextLength || Utf16Length(trimmed) > MaxTextLength {
        return Some(InvalidLength);
      }
      if IsPastDate(date, today) {
        return Some(PastDate);
      }
      tasks := tasks + [Task(now, trimmed, date, false)];
      stored := tasks;
      return None;
    }

    /** Replaces the list by the tasks whose id differs from `id`, and saves. */
    method DeleteTask(id: int)
      modifies this
      ensures tasks == WithoutId(old(tasks), id) && stored == tasks
      ensures searchTerm == old(searchTerm)
    {
      tasks := Filter(tasks, OtherId(id));
      stored := tasks;
    }

    /** Puts the task(s) with id `id` in edit mode and every other task out of it; does not save. */
    method EnterEditMode(id: int)
      modifies this
      ensures tasks == EditMode(old(tasks), id)
      ensures stored == old(stored) && searchTerm == old(searchTerm)
    {
      var i := 0;
      while i < |tasks|
        invariant 0 <= i <= |tasks| == |old(tasks)|
        invariant forall j :: 0 <= j < i ==> tasks[j] == old(tasks)[j].(isEditing := old(tasks)[j].id == id)
        invariant forall j :: i <= j < |tasks| ==> tasks[j] == old(tasks)[j]
        invariant stored == old(stored) && searchTerm == old(searchTerm)
      {
        tasks := tasks[i := tasks[i].(isEditing := tasks[i].id == id)];
        i := i + 1;
      }
    }

    /** Stores the edit in the first task with id `id` and saves; without such a task nothing happens. */
    method SaveEdit(id: int, newText: string, newDate: string)
      modifies this
      ensures tasks == ApplyEdit(old(tasks), id, newText, newDate)
      ensures stored == if IndexOf(old(tasks), id).Some? then tasks else old(stored)
      ensures searchTerm == old(searchTerm)
    {
      var k := FindFirst(tasks, id);
      if k.Some? {
        var task := tasks[k.value];
        var edited := task.(text := Trim(newText), date := newDate, isEditing := false);
        tasks := tasks[k.value := edited];
        stored := tasks;
      }
    }

    /** The `getFilteredTasks` getter: the tasks the list shows for the live search term. */
    function FilteredTasks(): (r: seq<Task>)
      reads this
      ensures r == Filtered(tasks, searchTerm)
      ensures IsSubsequence(r, tasks)
      ensures Utf16Length(searchTerm) < MinSearchLength ==> r == tasks
    {
      Filtered(tasks, searchTerm)
    }
  }
}
