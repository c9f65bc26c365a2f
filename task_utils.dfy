/** The list helpers of the board: splice-based reorder and move, the task
    filter and the initials of a name. Every function works on copies; its
    inputs are values and are never changed. */
module TaskUtils {
  import opened BoardTypes

  // ---------------------------------------------------------------- splice

  /** The position `splice(start, ...)` acts on in a list of `len` elements
      when `start` is not negative: a start beyond the end means the end. */
  function Clamp(start: nat, len: nat): (p: nat)
    ensures p <= len
    ensures p == start || (start > len && p == len)
  {
    if start <= len then start else len
  }

  /** `copy.splice(i, 1)` on a copy: the list without position `i`. */
  function RemoveAt<T>(s: seq<T>, i: nat): (r: seq<T>)
    requires i < |s|
    ensures |r| == |s| - 1
    ensures forall k :: 0 <= k < i ==> r[k] == s[k]
    ensures forall k :: i <= k < |r| ==> r[k] == s[k + 1]
  {
    s[..i] + s[i + 1..]
  }

  /** Removing a position loses exactly the element held there. */
  lemma RemoveAtCounts<T>(s: seq<T>, i: nat)
    requires i < |s|
    ensures multiset(RemoveAt(s, i)) + multiset{s[i]} == multiset(s)
  {
    assert s == s[..i] + [s[i]] + s[i + 1..];
  }

  /** `copy.splice(j, 0, x)` on a copy: `x` inserted before position `j`,
      or appended when `j` is past the end. */
  function InsertAt<T>(s: seq<T>, j: nat, x: T): (r: seq<T>)
    ensures |r| == |s| + 1
    ensures r[Clamp(j, |s|)] == x
    ensures forall k :: 0 <= k < Clamp(j, |s|) ==> r[k] == s[k]
    ensures forall k :: Clamp(j, |s|) < k < |r| ==> r[k] == s[k - 1]
  {
    var p := Clamp(j, |s|);
    s[..p] + [x] + s[p..]
  }

  /** Inserting gains exactly the inserted element. */
  lemma InsertAtCounts<T>(s: seq<T>, j: nat, x: T)
    ensures multiset(InsertAt(s, j, x)) == multiset(s) + multiset{x}
  {
    var p := Clamp(j, |s|);
    assert s == s[..p] + s[p..];
  }

  // ---------------------------------------------------------- reorderTasks

  /** `reorderTasks`: take the element at `startIndex` out and put it back
      at `endIndex` of the shortened list. The result is a permutation in
      which the moved element lands at `endIndex` (clamped to the last
      position), the elements between the two indices shift by one towards
      the vacated place, and every element outside that range stays put. */
  function ReorderTasks<T>(s: seq<T>, startIndex: nat, endIndex: nat): (r: seq<T>)
    requires startIndex < |s|
    ensures |r| == |s|
    ensures r[Clamp(endIndex, |s| - 1)] == s[startIndex]
    ensures forall k :: 0 <= k < startIndex && k < Clamp(endIndex, |s| - 1) ==> r[k] == s[k]
    ensures forall k :: startIndex < k < |s| && Clamp(endIndex, |s| - 1) < k ==> r[k] == s[k]
    ensures forall k :: startIndex <= k < Clamp(endIndex, |s| - 1) ==> r[k] == s[k + 1]
    ensures forall k :: Clamp(endIndex, |s| - 1) < k <= startIndex ==> r[k] == s[k - 1]
  {
    var removed := s[startIndex];
    InsertAt(RemoveAt(s, startIndex), endIndex, removed)
  }

  /** Reordering is a permutation: the same elements, as often as before. */
  lemma ReorderPermutes<T>(s: seq<T>, startIndex: nat, endIndex: nat)
    requires startIndex < |s|
    ensures multiset(ReorderTasks(s, startIndex, endIndex)) == multiset(s)
  {
    RemoveAtCounts(s, startIndex);
    InsertAtCounts(RemoveAt(s, startIndex), endIndex, s[startIndex]);
  }

  /** Moving an element onto its own position changes nothing. */
  lemma ReorderSameIndex<T>(s: seq<T>, i: nat)
    requires i < |s|
    ensures ReorderTasks(s, i, i) == s
  {
  }

  /** Moving an element back from `j` to `i` undoes moving it from `i` to `j`. */
  lemma ReorderInverse<T>(s: seq<T>, i: nat, j: nat)
    requires i < |s| && j < |s|
    ensures ReorderTasks(ReorderTasks(s, i, j), j, i) == s
  {
    var t := ReorderTasks(s, i, j);
    var u := ReorderTasks(t, j, i);
    assert Clamp(j, |s| - 1) == j && Clamp(i, |s| - 1) == i;
    forall k | 0 <= k < |s|
      ensures u[k] == s[k]
    {
      if k == i {
      } else if i < j && i < k <= j {
        assert u[k] == t[k - 1];
      } else if j < i && j <= k < i {
        assert u[k] == t[k + 1];
      }
    }
  }

  /** Moving the first of three one place down swaps the first two. */
  lemma ReorderExample()
    ensures ReorderTasks(["t1", "t2", "t3"], 0, 1) == ["t2", "t1", "t3"]
  {
  }

  // ------------------------------------------------ moveTaskBetweenColumns

  datatype Moved<T> = Moved(source: seq<T>, destination: seq<T>)

  /** `moveTaskBetweenColumns`: the source loses exactly the element at
      `sourceIndex` (the rest keep their order), the destination gains it at
      `destIndex`, or at its end when `destIndex` is past the end, and no
      element is created or lost between the two. */
  function MoveTaskBetweenColumns<T>(sourceColumn: seq<T>, destColumn: seq<T>,
                                     sourceIndex: nat, destIndex: nat): (r: Moved<T>)
    requires sourceIndex < |sourceColumn|
    ensures |r.source| == |sourceColumn| - 1
    ensures forall k :: 0 <= k < sourceIndex ==> r.source[k] == sourceColumn[k]
    ensures forall k :: sourceIndex <= k < |r.source| ==> r.source[k] == sourceColumn[k + 1]
    ensures |r.destination| == |destColumn| + 1
    ensures r.destination[Clamp(destIndex, |destColumn|)] == sourceColumn[sourceIndex]
    ensures forall k :: 0 <= k < Clamp(destIndex, |destColumn|) ==> r.destination[k] == destColumn[k]
    ensures forall k :: Clamp(destIndex, |destColumn|) < k < |r.destination| ==>
              r.destination[k] == destColumn[k - 1]
  {
    var removed := sourceColumn[sourceIndex];
    Moved(RemoveAt(sourceColumn, sourceIndex), InsertAt(destColumn, destIndex, removed))
  }

  /** The source loses the moved element, the destination gains it, and
      between the two nothing is created or lost. */
  lemma MoveConserves<T>(sourceColumn: seq<T>, destColumn: seq<T>, sourceIndex: nat, destIndex: nat)
    requires sourceIndex < |sourceColumn|
    ensures var r := MoveTaskBetweenColumns(sourceColumn, destColumn, sourceIndex, destIndex);
            && multiset(r.source) + multiset{sourceColumn[sourceIndex]} == multiset(sourceColumn)
            && multiset(r.destination) == multiset(destColumn) + multiset{sourceColumn[sourceIndex]}
            && multiset(r.source) + multiset(r.destination) == multiset(sourceColumn) + multiset(destColumn)
  {
    RemoveAtCounts(sourceColumn, sourceIndex);
    InsertAtCounts(destColumn, destIndex, sourceColumn[sourceIndex]);
  }

  // ------------------------------------------------------------- searching

  function LowerChar(c: char): char {
    if 'A' <= c <= 'Z' then (c as int + 32) as char else c
  }

  function UpperChar(c: char): char {
    if 'a' <= c <= 'z' then (c as int - 32) as char else c
  }

  /** `toLowerCase`, on ASCII letters only: every capital becomes its small
      letter, and every other character stays where it was. */
  function Lower(s: string): (r: string)
    ensures |r| == |s|
    ensures forall k :: 0 <= k < |r| ==> !('A' <= r[k] <= 'Z')
    ensures forall k :: 0 <= k < |r| && !('A' <= s[k] <= 'Z') ==> r[k] == s[k]
    ensures forall k :: 0 <= k < |r| && 'A' <= s[k] <= 'Z' ==> r[k] as int == s[k] as int + 32
  {
    seq(|s|, k requires 0 <= k < |s| => LowerChar(s[k]))
  }

  /** `toUpperCase`, on ASCII letters only: every small letter becomes its
      capital, and every other character stays where it was. */
  function Upper(s: string): (r: string)
    ensures |r| == |s|
    ensures forall k :: 0 <= k < |r| ==> !('a' <= r[k] <= 'z')
    ensures forall k :: 0 <= k < |r| && !('a' <= s[k] <= 'z') ==> r[k] == s[k]
    ensures forall k :: 0 <= k < |r| && 'a' <= s[k] <= 'z' ==> r[k] as int == s[k] as int - 32
  {
    seq(|s|, k requires 0 <= k < |s| => UpperChar(s[k]))
  }

  predicate StartsWith(s: string, prefix: string) {
    |prefix| <= |s| && s[..|prefix|] == prefix
  }

  /** `s.includes(sub)`, scanning left to right. */
  function Includes(s: string, sub: string): (r: bool)
    ensures sub == [] ==> r
    ensures r ==> |sub| <= |s|
    decreases |s|
  {
    StartsWith(s, sub) || (s != [] && Includes(s[1..], sub))
  }

  /** `sub` occurs in `s` starting at offset `i`. */
  ghost predicate OccursAt(s: string, sub: string, i: int) {
    0 <= i <= |s| - |sub| && s[i..i + |sub|] == sub
  }

  /** The scan finds `sub` exactly when `sub` occurs at some offset of `s`. */
  lemma {:induction false} IncludesIffOccurs(s: string, sub: string)
    ensures Includes(s, sub) <==> exists i :: OccursAt(s, sub, i)
    decreases |s|
  {
    if StartsWith(s, sub) {
      assert OccursAt(s, sub, 0);
    } else if s == [] {
      assert forall i :: !OccursAt(s, sub, i);
    } else {
      IncludesIffOccurs(s[1..], sub);
      if Includes(s[1..], sub) {
        var i :| OccursAt(s[1..], sub, i);
        assert OccursAt(s, sub, i + 1);
      }
      if exists i :: OccursAt(s, sub, i) {
        var i :| OccursAt(s, sub, i);
        assert i != 0;
        assert OccursAt(s[1..], sub, i - 1);
      }
    }
  }

  // --------------------------------------------------------------- filters

  /** Whether a task can be searched: the search reads `task.title`, and
      calling `toLowerCase` on a missing title throws. */
  predicate Searchable(t: Task, searchTerm: string) {
    searchTerm != [] ==> t.title.Some?
  }

  /** The search test: an empty term passes; otherwise the title or, when
      present, the description must contain the term, ignoring case. */
  predicate SearchMatches(t: Task, searchTerm: string)
    requires Searchable(t, searchTerm)
  {
    || searchTerm == []
    || Includes(Lower(t.title.value), Lower(searchTerm))
    || (t.description.Some? && Includes(Lower(t.description.value), Lower(searchTerm)))
  }

  /** The search accepts a task exactly when the term is empty or occurs,
      ignoring ASCII case, at some offset of the title or of the description. */
  lemma SearchMatchesIffOccurs(t: Task, searchTerm: string)
    requires Searchable(t, searchTerm)
    ensures SearchMatches(t, searchTerm) <==>
              || searchTerm == []
              || (exists i :: OccursAt(Lower(t.title.value), Lower(searchTerm), i))
              || (t.description.Some? && exists i :: OccursAt(Lower(t.description.value), Lower(searchTerm), i))
  {
    if searchTerm != [] {
      IncludesIffOccurs(Lower(t.title.value), Lower(searchTerm));
      if t.description.Some? {
        IncludesIffOccurs(Lower(t.description.value), Lower(searchTerm));
      }
    }
  }

  /** The assignee test: a missing or empty assignee filter passes;
      otherwise the task's assignee must equal it. */
  predicate AssigneeMatches(t: Task, f: Filters) {
    f.assignee.None? || f.assignee.value == [] || t.assignee == f.assignee
  }

  /** The priority test: a missing priority filter passes; otherwise the
      task's priority must equal it. */
  predicate PriorityMatches(t: Task, f: Filters) {
    f.priority.None? || t.priority == f.priority
  }

  /** The tag test of the list helper: a missing tag filter passes;
      otherwise every filter tag must be among the task's tags. An empty
      filter list still counts as a filter, and every task passes it. */
  predicate TagsMatch(t: Task, f: Filters) {
    f.tags.None? || forall tag :: tag in f.tags.value ==> t.tags.Some? && tag in t.tags.value
  }

  predicate Matches(t: Task, searchTerm: string, f: Filters)
    requires Searchable(t, searchTerm)
  {
    SearchMatches(t, searchTerm) && AssigneeMatches(t, f) && PriorityMatches(t, f) && TagsMatch(t, f)
  }

  /** `a` is `b` with some elements left out, the rest in their order. */
  ghost predicate IsSubsequence<T>(a: seq<T>, b: seq<T>)
    decreases |b|
  {
    || a == []
    || (b != [] && ((a[0] == b[0] && IsSubsequence(a[1..], b[1..])) || IsSubsequence(a, b[1..])))
  }

  /** Every list is a subsequence of itself. */
  lemma {:induction false} SubsequenceOfItself<T>(s: seq<T>)
    ensures IsSubsequence(s, s)
    decreases |s|
  {
    if s != [] {
      SubsequenceOfItself(s[1..]);
    }
  }

  /** `filterTasks`: the tasks that satisfy the search and all three
      attribute filters, in their original order; none is dropped that
      satisfies them. */
  function FilterTasks(tasks: seq<Task>, searchTerm: string, filters: Filters): (r: seq<Task>)
    requires forall k :: 0 <= k < |tasks| ==> Searchable(tasks[k], searchTerm)
    ensures IsSubsequence(r, tasks)
    ensures forall t :: t in r ==> t in tasks && Matches(t, searchTerm, filters)
    ensures forall t :: t in tasks && Matches(t, searchTerm, filters) ==> t in r
  {
    if tasks == [] then []
    else
      var rest := FilterTasks(tasks[1..], searchTerm, filters);
      if Matches(tasks[0], searchTerm, filters) then
        assert ([tasks[0]] + rest)[1..] == rest;
        [tasks[0]] + rest
      else rest
  }

  /** With no search term and no filter keys every task is kept. */
  lemma {:induction false} FilterTasksEmptyQuery(tasks: seq<Task>)
    ensures FilterTasks(tasks, "", NoFilters) == tasks
  {
    if tasks != [] {
      FilterTasksEmptyQuery(tasks[1..]);
      assert tasks == [tasks[0]] + tasks[1..];
    }
  }

  /** `filter` keeps every copy of a matching task and no copy of any other. */
  lemma {:induction false} FilterTasksCounts(tasks: seq<Task>, searchTerm: string, filters: Filters)
    requires forall k :: 0 <= k < |tasks| ==> Searchable(tasks[k], searchTerm)
    ensures forall t :: multiset(FilterTasks(tasks, searchTerm, filters))[t] ==
              if t in tasks && Matches(t, searchTerm, filters) then multiset(tasks)[t] else 0
    decreases |tasks|
  {
    if tasks != [] {
      FilterTasksCounts(tasks[1..], searchTerm, filters);
      assert tasks == [tasks[0]] + tasks[1..];
      forall t
        ensures multiset(FilterTasks(tasks, searchTerm, filters))[t] ==
                  if t in tasks && Matches(t, searchTerm, filters) then multiset(tasks)[t] else 0
      {
        if t !in tasks {
          assert t !in tasks[1..];
        }
      }
    }
  }

  /** A task without tags fails every non-empty tag filter. */
  lemma UntaggedFailsTagFilter(t: Task, f: Filters)
    requires t.tags.None? && f.tags.Some? && f.tags.value != []
    ensures !TagsMatch(t, f)
  {
    assert f.tags.value[0] in f.tags.value;
  }

  /** An empty tag filter lets every task through, tagged or not. */
  lemma EmptyTagFilterPasses(t: Task, f: Filters)
    requires f.tags == Some([])
    ensures TagsMatch(t, f)
  {
  }

  // ----------------------------------------------------------- getInitials

  /** `s.split(' ')`: the pieces between single spaces, empty ones included. */
  function Split(s: string): (parts: seq<string>)
    ensures |parts| >= 1
    ensures forall k :: 0 <= k < |parts| ==> ' ' !in parts[k]
    decreases |s|
  {
    if s == [] then [[]]
    else
      var rest := Split(s[1..]);
      if s[0] == ' ' then [[]] + rest
      else [[s[0]] + rest[0]] + rest[1..]
  }

  /** `parts.join(' ')`. */
  function Join(parts: seq<string>): string
    requires |parts| >= 1
  {
    if |parts| == 1 then parts[0] else parts[0] + " " + Join(parts[1..])
  }

  /** Splitting at spaces loses nothing: joining the pieces gives the string back. */
  lemma {:induction false} JoinSplit(s: string)
    ensures Join(Split(s)) == s
    decreases |s|
  {
    if s != [] {
      var rest := Split(s[1..]);
      JoinSplit(s[1..]);
      if s[0] == ' ' {
        assert ([[]] + rest)[1..] == rest;
      } else {
        var parts := [[s[0]] + rest[0]] + rest[1..];
        if |rest| > 1 {
          assert parts[1..] == rest[1..];
          assert rest == [rest[0]] + rest[1..];
        }
      }
    }
  }

  /** `parts.map(part => part[0]).join('')`: an empty piece gives `undefined`,
      which `join` writes as nothing. */
  function FirstLetters(parts: seq<string>): string {
    if parts == [] then []
    else (if parts[0] == [] then [] else [parts[0][0]]) + FirstLetters(parts[1..])
  }

  /** The letters that begin a word: non-spaces at the start or right after a space. */
  function WordStarts(s: string, afterSpace: bool): string
    decreases |s|
  {
    if s == [] then []
    else if s[0] == ' ' then WordStarts(s[1..], true)
    else (if afterSpace then [s[0]] else []) + WordStarts(s[1..], false)
  }

  /** The pieces after the first one start exactly where a space ends. */
  lemma {:induction false} FirstLettersOfLaterPieces(s: string)
    ensures FirstLetters(Split(s)[1..]) == WordStarts(s, false)
    decreases |s|
  {
    if s != [] {
      var rest := Split(s[1..]);
      if s[0] == ' ' {
        assert ([[]] + rest)[1..] == rest;
        FirstLettersAreWordStarts(s[1..]);
      } else {
        assert ([[s[0]] + rest[0]] + rest[1..])[1..] == rest[1..];
        FirstLettersOfLaterPieces(s[1..]);
      }
    }
  }

  /** The first letters of the pieces are the letters that begin a word. */
  lemma {:induction false} FirstLettersAreWordStarts(s: string)
    ensures FirstLetters(Split(s)) == WordStarts(s, true)
    decreases |s|, 1
  {
    if s != [] {
      var rest := Split(s[1..]);
      if s[0] == ' ' {
        assert ([[]] + rest)[1..] == rest;
        FirstLettersAreWordStarts(s[1..]);
      } else {
        var parts := [[s[0]] + rest[0]] + rest[1..];
        assert parts[1..] == rest[1..];
        FirstLettersOfLaterPieces(s[1..]);
      }
    }
  }

  /** `getInitials`: `'??'` for a missing or empty name; otherwise the first
      letter of each space-separated word, upper-cased, at most two of them. */
  function GetInitials(name: Option<string>): (r: string)
    ensures name.None? || name == Some("") ==> r == "??"
    ensures name.Some? && name.value != "" ==>
              var starts := WordStarts(name.value, true);
              |r| == if |starts| < 2 then |starts| else 2
    ensures name.Some? && name.value != "" ==>
              forall k :: 0 <= k < |r| ==> r[k] == UpperChar(WordStarts(name.value, true)[k])
  {
    if name.None? || name.value == [] then "??"
    else
      FirstLettersAreWordStarts(name.value);
      var joined := Upper(FirstLetters(Split(name.value)));
      joined[..if |joined| < 2 then |joined| else 2]
  }

  /** A concrete name: two words give their two capitals. */
  lemma InitialsExample()
    ensures GetInitials(Some("a b")) == "AB"
  {
    assert WordStarts("a b", true) == "ab";
  }
}
