/**
 * The state of the note screen and the operations that change it: adding a
 * note from the draft in the "New Note" sheet, the toast's timer firing, and
 * the input handlers that store the draft, the search text and whether the
 * sheet is open. Wall-clock reads are replaced by a `now` parameter in
 * milliseconds.
 */
module Screen {
  import opened Text
  import opened Notes
  import opened Toast
  import opened Wrappers

  class NotesScreen {
    var notes: seq<Note>
    var streak: int
    var toast: ToastState
    var noteCounter: int
    var isSheetOpen: bool
    var newNoteText: string
    var searchQuery: string

    /**
     * The screen's invariant: ids fall strictly along the list and stay below
     * the counter, titles are trimmed and non-empty, the counter and the
     * streak stay one ahead of the number of notes, and a dismiss timer is
     * pending exactly while the toast is shown.
     */
    ghost predicate Valid()
      reads this
    {
      && IdsDecreasing(notes)
      && IdsBelow(notes, noteCounter)
      && TitlesTrimmed(notes)
      && noteCounter == |notes| + 1
      && streak == |notes| + 1
      && toast.Valid()
    }

    /** The screen as first shown at time `now`: two seeded notes, streak 3. */
    constructor (now: int)
      ensures Valid()
      ensures notes == [Note(2, "Buy coffee beans", now - 3600000),
                        Note(1, "Call mom this weekend", now - 7200000)]
      ensures streak == 3 && noteCounter == 3
      ensures toast == Hidden && !isSheetOpen
      ensures newNoteText == "" && searchQuery == ""
    {
      notes := [Note(2, "Buy coffee beans", now - 3600000),
                Note(1, "Call mom this weekend", now - 7200000)];
      streak := 3;
      toast := Hidden;
      noteCounter := 3;
      isSheetOpen := false;
      newNoteText := "";
      searchQuery := "";
    }

    /**
     * Saves the draft as a new note at time `now`. A dismiss timer that is due
     * by `now` has already fired, so it is run first, whatever the draft. A
     * draft that is blank after trimming is then ignored and nothing else
     * changes. Otherwise the trimmed draft is put at the head of the list
     * under the current counter value, the counter and the streak go up by
     * one, the toast is shown, the sheet closes and the draft is cleared.
     */
    method AddNote(now: int)
      requires Valid()
      modifies this
      ensures Valid()
      ensures IsBlank(old(newNoteText)) ==>
        && notes == old(notes)
        && noteCounter == old(noteCounter)
        && streak == old(streak)
        && toast == Advance(old(toast), now)
        && isSheetOpen == old(isSheetOpen)
        && newNoteText == old(newNoteText)
        && searchQuery == old(searchQuery)
      ensures !IsBlank(old(newNoteText)) ==>
        && notes == [Note(old(noteCounter), Trim(old(newNoteText)), now)] + old(notes)
        && noteCounter == old(noteCounter) + 1
        && streak == old(streak) + 1
        && toast == Show(Advance(old(toast), now), now)
        && !isSheetOpen
        && newNoteText == ""
        && searchQuery == old(searchQuery)
    {
      toast := Advance(toast, now);
      var title := Trim(newNoteText);
      if title == [] {
        return;
      }
      var newNote := Note(noteCounter, title, now);
      PrependNewest(notes, newNote, noteCounter);
      notes := [newNote] + notes;
      noteCounter := noteCounter + 1;
      streak := streak + 1;
      toast := Show(toast, now);
      isSheetOpen := false;
      newNoteText := "";
    }

    /** The virtual clock reaches `now`; a due dismiss timer hides the toast. */
    method Tick(now: int)
      requires Valid()
      modifies this`toast
      ensures Valid()
      ensures toast == Advance(old(toast), now)
    {
      toast := Advance(toast, now);
    }

    /** The draft input's change handler. */
    method SetNewNoteText(text: string)
      requires Valid()
      modifies this`newNoteText
      ensures Valid() && newNoteText == text
    {
      newNoteText := text;
    }

    /** The search input's change handler: the text is stored as typed. */
    method SetSearchQuery(text: string)
      requires Valid()
      modifies this`searchQuery
      ensures Valid() && searchQuery == text
    {
      searchQuery := text;
    }

    /** The "New" button (open) and the sheet's open-change handler. */
    method SetSheetOpen(open: bool)
      requires Valid()
      modifies this`isSheetOpen
      ensures Valid() && isSheetOpen == open
    {
      isSheetOpen := open;
    }

    /**
     * The notes listed under the search box: exactly the notes whose title
     * matches the query, in list order, still with falling ids.
     */
    function FilteredNotes(): (r: seq<Note>)
      requires Valid()
      reads this
      ensures IsSubsequence(r, notes)
      ensures IdsDecreasing(r)
      ensures forall n :: n in r <==> n in notes && Matches(n, searchQuery)
      ensures searchQuery == "" ==> r == notes
    {
      FilterIsSubsequence(notes, searchQuery);
      FilterKeepsIdsDecreasing(notes, searchQuery);
      FilterEmptyQuery(notes);
      Filter(notes, searchQuery)
    }
  }

  /** A caller's view: a padded draft is saved trimmed, under id 3. */
  method SaveScenario(now: int, title: string)
    requires title != [] && IsTrimmed(title)
  {
    var pad := [' '];
    var draft := pad + title + pad;
    TrimOfPadded(pad, title, pad);
    var screen := new NotesScreen(now);
    screen.SetSheetOpen(true);
    screen.SetNewNoteText(draft);
    screen.AddNote(now);
    assert screen.notes[0] == Note(3, title, now) && |screen.notes| == 3;
    assert screen.streak == 4 && screen.toast.visible && !screen.isSheetOpen;
  }

  /** A caller's view: saving a blank draft changes nothing. */
  method BlankDraftScenario(now: int)
  {
    var screen := new NotesScreen(now);
    screen.SetNewNoteText("  ");
    assert IsBlank(screen.newNoteText);
    screen.AddNote(now);
    assert |screen.notes| == 2 && screen.streak == 3 && screen.noteCounter == 3;
    assert !screen.toast.visible;
  }

  /**
   * A caller's view: a blank save at the first toast's deadline still lets
   * the due timer fire, so the toast is hidden afterwards.
   */
  method BlankAfterDeadlineScenario(now: int)
  {
    var screen := new NotesScreen(now);
    screen.SetNewNoteText("x");
    assert !IsBlank(screen.newNoteText) by { assert screen.newNoteText[0] == 'x'; }
    screen.AddNote(now);
    screen.SetNewNoteText("  ");
    assert IsBlank(screen.newNoteText);
    screen.AddNote(now + 1400);
    assert !screen.toast.visible && |screen.notes| == 3;
  }

  /** A caller's view: the toast is up for 1400 ms after a save, then gone. */
  method DismissScenario(now: int)
  {
    var screen := new NotesScreen(now);
    screen.SetNewNoteText("x");
    assert !IsBlank(screen.newNoteText) by { assert screen.newNoteText[0] == 'x'; }
    screen.AddNote(now);
    screen.Tick(now + 1399);
    assert screen.toast.visible;
    screen.Tick(now + 1400);
    assert !screen.toast.visible;
  }

  /**
   * A caller's view: a save after the first toast's deadline arms a new
   * timer, so the toast stays up until 1400 ms after the second save.
   */
  method ResaveAfterDismissScenario(now: int)
  {
    var screen := new NotesScreen(now);
    screen.SetNewNoteText("x");
    assert !IsBlank(screen.newNoteText) by { assert screen.newNoteText[0] == 'x'; }
    screen.AddNote(now);
    screen.SetNewNoteText("y");
    assert !IsBlank(screen.newNoteText) by { assert screen.newNoteText[0] == 'y'; }
    screen.AddNote(now + 2000);
    assert screen.toast.deadline == Some(now + 3400);
  }
}
