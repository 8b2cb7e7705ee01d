/**
 * What the task store promises, proved about the functions that specify
 * its operations: validation on insertion, exact deletion, a single task
 * in edit mode, the reach of an edit, and the search view.
 */
module TodoProperties {
  import opened Wrappers
  import opened JsString
  import opened Calendar
  import opened Sequences
  import opened TodoStore

  // ---------------------------------------------------------------------
  // Adding

  /** A text of valid length with a date spelled for today or a later day is accepted. */
  lemma DateFromTodayOnIsAccepted(text: string, d: Day, today: Day)
    requires MinTextLength <= Utf16Length(Trim(text)) <= MaxTextLength
    requires IsIsoDay(d) && !Before(d, today)
    ensures !IsPastDate(FormatIsoDate(d), today)
    ensures CheckNewTask(text, FormatIsoDate(d), today).None?
  {
  }

  /** A text of valid length with a date spelled for an earlier day is refused as past. */
  lemma PastDayIsRejected(text: string, d: Day, today: Day)
    requires MinTextLength <= Utf16Length(Trim(text)) <= MaxTextLength
    requires IsIsoDay(d) && Before(d, today)
    ensures CheckNewTask(text, FormatIsoDate(d), today) == Some(PastDate)
  {
  }

  /** The empty date skips the past-date check: only the length can refuse the task. */
  lemma EmptyDateIsNeverPast(text: string, today: Day)
    ensures CheckNewTask(text, "", today) != Some(PastDate)
    ensures CheckNewTask(text, "", today).None? <==> MinTextLength <= Utf16Length(Trim(text)) <= MaxTextLength
  {
  }

  /**
   * An accepted task's text is the input with its surrounding whitespace cut
   * off: a block of the input, neither starting nor ending with whitespace,
   * 3 to 255 UTF-16 code units long.
   */
  lemma AcceptedTextIsTrimmedBlock(now: int, text: string, date: string, today: Day)
    requires CheckNewTask(text, date, today).None?
    ensures var t := NewTask(now, text, date).text;
      && MinTextLength <= Utf16Length(t) <= MaxTextLength && Trimmed(t)
      && LeadLength(text) + |t| <= |text| && t == text[LeadLength(text)..LeadLength(text) + |t|]
      && AllWhitespace(text[..LeadLength(text)]) && AllWhitespace(text[LeadLength(text) + |t|..])
  {
    TrimSplits(text);
  }

  /**
   * Appending the new task keeps at most one task in edit mode, and keeps ids
   * unique as long as the clock gave an id no task has yet.
   */
  lemma AddKeepsInvariants(s: seq<Task>, now: int, text: string, date: string)
    ensures AtMostOneEditing(s) ==> AtMostOneEditing(s + [NewTask(now, text, date)])
    ensures UniqueIds(s) && (forall i :: 0 <= i < |s| ==> s[i].id != now)
      ==> UniqueIds(s + [NewTask(now, text, date)])
  {
  }

  // ---------------------------------------------------------------------
  // Deleting

  /**
   * Deleting by id keeps exactly the tasks with another id, each as often as
   * before, in their original order; no task with that id is left.
   */
  lemma DeleteKeepsExactlyOthers(s: seq<Task>, id: int, t: Task)
    ensures multiset(WithoutId(s, id))[t] == if t.id != id then multiset(s)[t] else 0
    ensures IsSubsequence(WithoutId(s, id), s)
    ensures forall i :: 0 <= i < |WithoutId(s, id)| ==> WithoutId(s, id)[i].id != id
  {
    FilterCount(s, OtherId(id), t);
    FilterIsSubsequence(s, OtherId(id));
    FilterAllKept(s, OtherId(id));
  }

  /** Deleting an id no task has leaves the list as it is. */
  lemma DeleteAbsentIsNoOp(s: seq<Task>, id: int)
    requires forall i :: 0 <= i < |s| ==> s[i].id != id
    ensures WithoutId(s, id) == s
  {
    FilterKeepsAll(s, OtherId(id));
  }

  /** Deleting the same id twice is deleting it once. */
  lemma DeleteTwiceIsDeleteOnce(s: seq<Task>, id: int)
    ensures WithoutId(WithoutId(s, id), id) == WithoutId(s, id)
  {
    FilterIdempotent(s, OtherId(id));
  }

  /** Deleting keeps ids unique and at most one task in edit mode. */
  lemma DeleteKeepsInvariants(s: seq<Task>, id: int)
    ensures UniqueIds(s) ==> UniqueIds(WithoutId(s, id))
    ensures AtMostOneEditing(s) ==> AtMostOneEditing(WithoutId(s, id))
  {
    if UniqueIds(s) {
      FilterPairwise(s, OtherId(id), IdsDiffer);
    }
    if AtMostOneEditing(s) {
      FilterPairwise(s, OtherId(id), NotBothEditing);
    }
  }

  // ---------------------------------------------------------------------
  // Edit mode

  /**
   * With unique ids, entering edit mode leaves at most one task editing, and
   * some task is editing exactly when a task has the id.
   */
  lemma EditModeSingle(s: seq<Task>, id: int)
    requires UniqueIds(s)
    ensures AtMostOneEditing(EditMode(s, id))
    ensures UniqueIds(EditMode(s, id))
    ensures (exists i :: 0 <= i < |s| && EditMode(s, id)[i].isEditing) <==> (exists i :: 0 <= i < |s| && s[i].id == id)
  {
  }

  /** Entering edit mode for `a` and then for `b` is entering it for `b` alone. */
  lemma EditModeLastWins(s: seq<Task>, a: int, b: int)
    ensures EditMode(EditMode(s, a), b) == EditMode(s, b)
  {
  }

  // ---------------------------------------------------------------------
  // Committing an edit

  /**
   * When `k` is the first position holding id `id`, the edit replaces exactly
   * that task's text by the trimmed new text (with no length check), its date
   * by the new date (with no past-date check) and clears its edit flag.
   */
  lemma ApplyEditChangesFirstMatch(s: seq<Task>, id: int, newText: string, newDate: string, k: nat)
    requires k < |s| && s[k].id == id
    requires forall j :: 0 <= j < k ==> s[j].id != id
    ensures ApplyEdit(s, id, newText, newDate) == s[k := Task(id, Trim(newText), newDate, false)]
  {
  }

  /** An edit of an id no task has changes nothing. */
  lemma ApplyEditAbsentIsNoOp(s: seq<Task>, id: int, newText: string, newDate: string)
    requires forall i :: 0 <= i < |s| ==> s[i].id != id
    ensures ApplyEdit(s, id, newText, newDate) == s
  {
  }

  /** An edit keeps ids unique and at most one task in edit mode. */
  lemma ApplyEditKeepsInvariants(s: seq<Task>, id: int, newText: string, newDate: string)
    ensures UniqueIds(s) ==> UniqueIds(ApplyEdit(s, id, newText, newDate))
    ensures AtMostOneEditing(s) ==> AtMostOneEditing(ApplyEdit(s, id, newText, newDate))
  {
  }

  // ---------------------------------------------------------------------
  // Search view

  /** A search term shorter than two code units shows every task, in order. */
  lemma ShortTermShowsAll(s: seq<Task>, term: string)
    requires Utf16Length(term) < MinSearchLength
    ensures Filtered(s, term) == s
  {
  }

  /**
   * A search term of two or more code units shows exactly the tasks whose
   * lower-cased text contains the lower-cased term, each as often as in the
   * list; for every term the view keeps the list's order.
   */
  lemma SearchShowsExactlyMatches(s: seq<Task>, term: string, t: Task)
    ensures Utf16Length(term) >= MinSearchLength ==>
      multiset(Filtered(s, term))[t] == if MatchesSearch(t, term) then multiset(s)[t] else 0
    ensures IsSubsequence(Filtered(s, term), s)
  {
    FilterCount(s, SearchFilter(term), t);
    FilterIsSubsequence(s, SearchFilter(term));
    if Utf16Length(term) < MinSearchLength {
      SubsequenceReflexive(s);
    }
  }

  /** The case of the search term's letters does not change the view. */
  lemma SearchIgnoresTermCase(s: seq<Task>, term: string)
    ensures Filtered(s, ToLower(term)) == Filtered(s, term)
  {
    ToLowerUtf16Length(term);
    ToLowerIdempotent(term);
    FilterAgree(s, SearchFilter(ToLower(term)), SearchFilter(term));
  }

  /** The view never shows two tasks in edit mode when the list does not hold two. */
  lemma ViewKeepsSingleEditing(s: seq<Task>, term: string)
    requires AtMostOneEditing(s)
    ensures AtMostOneEditing(Filtered(s, term))
  {
    FilterPairwise(s, SearchFilter(term), NotBothEditing);
  }

  // ---------------------------------------------------------------------
  // Scenarios (the texts are parameters pinned by `requires`, so that the
  // verifier reasons about them through the lemmas above)

  /** Adding "Buy milk" without a date to an empty list gives that one task, not in edit mode. */
  lemma ScenarioAddBuyMilk(now: int, today: Day, text: string)
    requires text == "Buy milk"
    ensures CheckNewTask(text, "", today).None?
    ensures [] + [NewTask(now, text, "")] == [Task(now, text, "", false)]
  {
  }

  /** A two-letter text is refused for its length. */
  lemma ScenarioAddTooShort(today: Day, text: string)
    requires text == "ok"
    ensures CheckNewTask(text, "", today) == Some(InvalidLength)
  {
    Utf16LengthOfBmp(text);
    TrimIsCore(text, [], text, []);
  }

  /**
   * 128 emoji are 256 UTF-16 code units, so the text is refused for its
   * length although it has fewer than 255 characters.
   */
  lemma ScenarioAddEmojiTooLong(today: Day, text: string)
    requires |text| == 128 && forall i :: 0 <= i < |text| ==> text[i] == '\U{1F600}'
    ensures CheckNewTask(text, "", today) == Some(InvalidLength)
  {
    Utf16LengthOfAstral(text);
    TrimIsCore(text, [], text, []);
  }

  /** "buy" occurs at the start of the lower-cased text of a task whose text starts with "Buy". */
  lemma BuyMatches(t: Task, term: string)
    requires term == "buy"
    requires |t.text| >= 3 && t.text[..3] == "Buy"
    ensures MatchesSearch(t, term)
  {
  }

  /** Searching "buy" in "Buy milk" and "Buy bread" shows both, in order. */
  lemma ScenarioSearchBuy(milk: Task, bread: Task, term: string)
    requires milk.text == "Buy milk" && bread.text == "Buy bread"
    requires term == "buy"
    ensures Filtered([milk, bread], term) == [milk, bread]
  {
    Utf16LengthOfBmp(term);
    BuyMatches(milk, term);
    BuyMatches(bread, term);
    FilterKeepsAll([milk, bread], SearchFilter(term));
  }

  /** Entering edit mode for one task and then another leaves only the second editing. */
  lemma ScenarioEditTwice(first: Task, second: Task)
    requires first.id != second.id
    ensures EditMode(EditMode([first, second], first.id), second.id)
      == [first.(isEditing := false), second.(isEditing := true)]
  {
  }

  /** " x " trims to a one-letter text, which `addTask` refuses. */
  lemma ShortEditText(today: Day, newText: string)
    requires newText == " x "
    ensures Trim(newText) == "x"
    ensures CheckNewTask(newText, "", today) == Some(InvalidLength)
  {
    TrimIsCore(newText, " ", "x", " ");
  }

  /** "Buy milk" dated 2000-01-01 is refused as past once that day is over. */
  lemma PastEditDate(today: Day, text: string, date: string)
    requires text == "Buy milk" && date == "2000-01-01"
    requires Before(Day(2000, 1, 1), today)
    ensures CheckNewTask(text, date, today) == Some(PastDate)
  {
    Utf16LengthOfBmp(text);
    TrimIsCore(text, [], text, []);
    ParseFormat(Day(2000, 1, 1));
    assert FormatIsoDate(Day(2000, 1, 1)) == date;
  }

  /** An edit stores a text `addTask` would refuse and a past date: the edit path checks neither. */
  lemma ScenarioEditSkipsValidation(id: int, today: Day, oldText: string, newText: string, date: string)
    requires oldText == "Buy milk" && newText == " x " && date == "2000-01-01"
    requires Before(Day(2000, 1, 1), today)
    ensures ApplyEdit([Task(id, oldText, "", true)], id, newText, date) == [Task(id, "x", date, false)]
    ensures CheckNewTask(newText, "", today) == Some(InvalidLength)
    ensures CheckNewTask(oldText, date, today) == Some(PastDate)
  {
    ShortEditText(today, newText);
    PastEditDate(today, oldText, date);
  }
}
