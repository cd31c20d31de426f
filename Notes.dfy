/**
 * The notes on the screen and the search over them: a note record, the
 * ordering of ids along the newest-first list, and the case-insensitive
 * title filter that decides which notes are listed.
 */
module Notes {
  import opened Text

  /** One note; `timestamp` is its creation time in milliseconds. */
  datatype Note = Note(id: int, title: string, timestamp: int)

  /** Ids fall strictly from the head (newest) of the list to its tail. */
  predicate IdsDecreasing(notes: seq<Note>) {
    forall i :: 0 <= i < |notes| - 1 ==> notes[i].id > notes[i + 1].id
  }

  /** Every id is below `bound` (the next id to be handed out). */
  predicate IdsBelow(notes: seq<Note>, bound: int) {
    forall i :: 0 <= i < |notes| ==> notes[i].id < bound
  }

  /** Every title is non-empty and carries no outer whitespace. */
  predicate TitlesTrimmed(notes: seq<Note>) {
    forall i :: 0 <= i < |notes| ==> notes[i].title != [] && IsTrimmed(notes[i].title)
  }

  /** A strictly decreasing list orders every pair, so its ids are distinct. */
  lemma {:induction false} IdsDecreasingOrdersAll(notes: seq<Note>, i: int, j: int)
    requires IdsDecreasing(notes)
    requires 0 <= i < j < |notes|
    ensures notes[i].id > notes[j].id
    decreases j - i
  {
    if j > i + 1 {
      IdsDecreasingOrdersAll(notes, i + 1, j);
    }
  }

  /** The ids of a strictly decreasing list are pairwise distinct. */
  lemma IdsDistinct(notes: seq<Note>)
    requires IdsDecreasing(notes)
    ensures forall i, j :: 0 <= i < |notes| && 0 <= j < |notes| && i != j ==> notes[i].id != notes[j].id
  {
    forall i, j | 0 <= i < |notes| && 0 <= j < |notes| && i != j
      ensures notes[i].id != notes[j].id
    {
      if i < j { IdsDecreasingOrdersAll(notes, i, j); } else { IdsDecreasingOrdersAll(notes, j, i); }
    }
  }

  /** The search test: the lower-cased title includes the lower-cased query. */
  predicate Matches(note: Note, query: string)
    ensures Matches(note, query) <==> exists i :: OccursAt(ToLower(note.title), ToLower(query), i)
  {
    ContainsIff(ToLower(note.title), ToLower(query));
    Contains(ToLower(note.title), ToLower(query))
  }

  /** `a` can be obtained from `b` by deleting elements, keeping the order. */
  predicate IsSubsequence<T(==)>(a: seq<T>, b: seq<T>)
    decreases |b|
  {
    if a == [] then true
    else if b == [] then false
    else if a[0] == b[0] then IsSubsequence(a[1..], b[1..])
    else IsSubsequence(a, b[1..])
  }

  /** The notes listed for a search query, in list order. */
  function Filter(notes: seq<Note>, query: string): (r: seq<Note>)
    ensures |r| <= |notes|
    ensures forall n :: n in r ==> n in notes && Matches(n, query)
    ensures forall n :: n in notes && Matches(n, query) ==> n in r
  {
    if notes == [] then []
    else
      var rest := Filter(notes[1..], query);
      assert forall n :: n in notes <==> n == notes[0] || n in notes[1..];
      if Matches(notes[0], query) then [notes[0]] + rest else rest
  }

  /** The listed notes are the notes in their original order, some left out. */
  lemma {:induction false} FilterIsSubsequence(notes: seq<Note>, query: string)
    ensures IsSubsequence(Filter(notes, query), notes)
  {
    if notes != [] {
      var r := Filter(notes, query);
      FilterIsSubsequence(notes[1..], query);
      if Matches(notes[0], query) {
        assert r[0] == notes[0] && r[1..] == Filter(notes[1..], query);
      } else if r != [] {
        assert r[0] in r;
        assert r[0] != notes[0];
      }
    }
  }

  /** An empty query lists every note, in order. */
  lemma {:induction false} FilterEmptyQuery(notes: seq<Note>)
    ensures Filter(notes, "") == notes
  {
    if notes != [] {
      ContainsEmpty(ToLower(notes[0].title));
      assert ToLower("") == "";
      FilterEmptyQuery(notes[1..]);
    }
  }

  /** The case of the query does not matter: it is lower-cased before use. */
  lemma {:induction false} FilterIgnoresQueryCase(notes: seq<Note>, query: string)
    ensures Filter(notes, query) == Filter(notes, ToLower(query))
  {
    ToLowerIdempotent(query);
    if notes != [] {
      FilterIgnoresQueryCase(notes[1..], query);
    }
  }

  /** The query is used exactly as typed: surrounding spaces are not trimmed. */
  lemma QueryIsNotTrimmed()
    ensures Filter([Note(1, "milk", 0)], "milk") == [Note(1, "milk", 0)]
    ensures Filter([Note(1, "milk", 0)], " milk") == []
  {
    var t, q := ToLower("milk"), ToLower(" milk");
    assert t == "milk" && q == " milk";
    assert Contains(t, t) by { assert t[..|t|] == t; }
  }

  /** The listed notes keep the ordering of ids. */
  lemma {:induction false} FilterKeepsIdsDecreasing(notes: seq<Note>, query: string)
    requires IdsDecreasing(notes)
    ensures IdsDecreasing(Filter(notes, query))
  {
    if notes != [] {
      var tail := notes[1..];
      var rest := Filter(tail, query);
      assert IdsDecreasing(tail);
      FilterKeepsIdsDecreasing(tail, query);
      if Matches(notes[0], query) {
        assert Filter(notes, query) == [notes[0]] + rest;
        if rest != [] {
          assert rest[0] in tail;
          var j :| 0 <= j < |tail| && tail[j] == rest[0];
          IdsDecreasingOrdersAll(notes, 0, j + 1);
        }
      } else {
        assert Filter(notes, query) == rest;
      }
    }
  }

  /**
   * Putting a note whose id is the current bound at the head keeps the ids
   * falling and below the next bound, and keeps every title trimmed.
   */
  lemma PrependNewest(notes: seq<Note>, n: Note, bound: int)
    requires IdsDecreasing(notes) && IdsBelow(notes, bound) && TitlesTrimmed(notes)
    requires n.id == bound && n.title != [] && IsTrimmed(n.title)
    ensures IdsDecreasing([n] + notes) && IdsBelow([n] + notes, bound + 1)
    ensures TitlesTrimmed([n] + notes)
  {
    var s := [n] + notes;
    assert forall i :: 1 <= i < |s| ==> s[i] == notes[i - 1];
  }
}
