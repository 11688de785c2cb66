/** Step highlighting of the debugger view: whole-line decorations of class
    `debug-<status>-step`, the two id lists the manager keeps for them
    (ordinary steps and the "current" step), and the queries over lines. */
module RuntimeSteps {
  import opened Wrappers
  import opened Decorations

  const CurrentStatus: string := "current"
  const CurrentGlyph: string := "debug-current-step-glyph"

  /** The inline class drawn for a status. */
  function StepClass(status: string): string {
    "debug-" + status + "-step"
  }

  /** Different statuses are drawn with different classes. */
  lemma StepClassInjective(a: string, b: string)
    requires StepClass(a) == StepClass(b)
    ensures a == b
  {
    assert a == StepClass(a)[6..|StepClass(a)| - 5];
    assert b == StepClass(b)[6..|StepClass(b)| - 5];
  }

  /** The whole-line decoration placed on `line` for a status. */
  function StepDecoration(status: string, line: int): Decoration {
    Decoration(LineRange(line), Some(StepClass(status)),
               if status == CurrentStatus then Some(CurrentGlyph) else None)
  }

  /** The decorations placed by a call: one per listed line, none for an empty status. */
  function StepDecorations(status: string, lines: seq<int>): (ds: seq<Decoration>)
    ensures |ds| == if status == "" then 0 else |lines|
    ensures forall i | 0 <= i < |ds| :: ds[i] == StepDecoration(status, lines[i])
  {
    if status == "" then [] else seq(|lines|, i requires 0 <= i < |lines| => StepDecoration(status, lines[i]))
  }

  /** Whether some live decoration touching `line` has inline class `cls`. */
  predicate Marked(decos: map<Id, Decoration>, line: int, cls: string) {
    exists id | id in decos :: OnLine(decos[id], line) && decos[id].className == Some(cls)
  }

  /** The ids of `ids` whose live decoration carries a truthy inline class, in order. */
  function ClassBearing(decos: map<Id, Decoration>, ids: seq<Id>): seq<Id> {
    if ids == [] then []
    else
      var last := ids[|ids| - 1];
      ClassBearing(decos, ids[..|ids| - 1]) + (if last in decos && HasClass(decos[last]) then [last] else [])
  }

  lemma {:induction false} ClassBearingMembers(decos: map<Id, Decoration>, ids: seq<Id>)
    ensures forall id :: id in ClassBearing(decos, ids) <==> id in ids && id in decos && HasClass(decos[id])
  {
    if ids != [] {
      var init := ids[..|ids| - 1];
      ClassBearingMembers(decos, init);
      assert ids == init + [ids[|ids| - 1]];
    }
  }

  /** The class-bearing decorations found line by line, as the scan collects them. */
  function ScanLines(decos: map<Id, Decoration>, n: nat, lines: seq<int>): seq<Id> {
    if lines == [] then []
    else
      ScanLines(decos, n, lines[..|lines| - 1])
        + ClassBearing(decos, IdsOnLineBelow(decos, n, lines[|lines| - 1]))
  }

  /** The scan finds exactly the live class-bearing decorations touching a listed line. */
  lemma {:induction false} ScanLinesFinds(decos: map<Id, Decoration>, n: nat, lines: seq<int>)
    ensures forall id :: id in ScanLines(decos, n, lines) <==>
      id < n && id in decos && HasClass(decos[id]) && exists k | 0 <= k < |lines| :: OnLine(decos[id], lines[k])
  {
    if lines != [] {
      var init := lines[..|lines| - 1];
      ScanLinesFinds(decos, n, init);
      ClassBearingMembers(decos, IdsOnLineBelow(decos, n, lines[|lines| - 1]));
      forall id
        ensures id in ScanLines(decos, n, lines) <==>
          id < n && id in decos && HasClass(decos[id]) && exists k | 0 <= k < |lines| :: OnLine(decos[id], lines[k])
      {
        if id in decos {
          SomeLineSnoc(decos[id], lines, init);
        }
      }
    }
  }

  /** A decoration touches one of the lines exactly when it touches one of
      all but the last, or the last. */
  lemma SomeLineSnoc(d: Decoration, lines: seq<int>, init: seq<int>)
    requires lines != [] && init == lines[..|lines| - 1]
    ensures (exists k | 0 <= k < |lines| :: OnLine(d, lines[k])) <==>
      (exists k | 0 <= k < |init| :: OnLine(d, init[k])) || OnLine(d, lines[|lines| - 1])
  {
    if exists k | 0 <= k < |lines| :: OnLine(d, lines[k]) {
      var k :| 0 <= k < |lines| && OnLine(d, lines[k]);
      if k < |init| {
        assert init[k] == lines[k];
      }
    }
    if exists k | 0 <= k < |init| :: OnLine(d, init[k]) {
      var k :| 0 <= k < |init| && OnLine(d, init[k]);
      assert lines[k] == init[k];
    }
  }

  lemma ClassBearingSnoc(decos: map<Id, Decoration>, ids: seq<Id>, x: Id)
    requires x in decos
    ensures ClassBearing(decos, ids + [x]) == ClassBearing(decos, ids) + (if HasClass(decos[x]) then [x] else [])
  {
    assert (ids + [x])[..|ids|] == ids;
  }

  lemma ScanLinesSnoc(decos: map<Id, Decoration>, n: nat, lines: seq<int>, line: int)
    ensures ScanLines(decos, n, lines + [line]) == ScanLines(decos, n, lines) + ClassBearing(decos, IdsOnLineBelow(decos, n, line))
  {
    assert (lines + [line])[..|lines|] == lines;
  }

  lemma StepDecorationsSnoc(status: string, lines: seq<int>, line: int)
    ensures StepDecorations(status, lines + [line]) ==
      StepDecorations(status, lines) + (if status == "" then [] else [StepDecoration(status, line)])
  {
  }

  /** One more line of the scan of `Set`. */
  lemma ScanNext(decos: map<Id, Decoration>, n: nat, first: seq<Id>, lines: seq<int>, k: nat, status: string)
    requires k < |lines|
    ensures first + ScanLines(decos, n, lines[..k]) + ClassBearing(decos, IdsOnLineBelow(decos, n, lines[k]))
         == first + ScanLines(decos, n, lines[..k + 1])
    ensures StepDecorations(status, lines[..k]) + (if status == "" then [] else [StepDecoration(status, lines[k])])
         == StepDecorations(status, lines[..k + 1])
  {
    assert lines[..k + 1] == lines[..k] + [lines[k]];
    ScanLinesSnoc(decos, n, lines[..k], lines[k]);
    StepDecorationsSnoc(status, lines[..k], lines[k]);
  }

  /** The ids a call removes: for "current" every recorded current id, then
      whatever the scan of the listed lines found. */
  function Doomed(decos: map<Id, Decoration>, n: nat, lines: seq<int>, status: string, current: seq<Id>): seq<Id> {
    (if status == CurrentStatus then current else []) + ScanLines(decos, n, lines)
  }

  // ---------------------------------------------------------------------
  // The id lists

  /** The index of the first occurrence of `x` in `ids`, or -1. */
  function IndexOf(ids: seq<Id>, x: Id): (i: int)
    ensures -1 <= i < |ids|
    ensures i >= 0 ==> ids[i] == x && x !in ids[..i]
    ensures i == -1 <==> x !in ids
  {
    if ids == [] then -1
    else if ids[0] == x then 0
    else
      var i := IndexOf(ids[1..], x);
      assert i >= 0 ==> ids[1..][..i] == ids[1..i + 1];
      if i == -1 then -1 else i + 1
  }

  /** Removes the element at index `i`; an index past the end removes nothing. */
  function SpliceAt(ids: seq<Id>, i: nat): seq<Id> {
    if i < |ids| then ids[..i] + ids[i + 1..] else ids
  }

  /** Removes the first occurrence of `x`, if any. */
  function RemoveFirst(ids: seq<Id>, x: Id): seq<Id> {
    var i := IndexOf(ids, x);
    if i == -1 then ids else SpliceAt(ids, i)
  }

  /** Removes the first occurrence of each of `xs` in turn. */
  function RemoveEach(ids: seq<Id>, xs: seq<Id>): seq<Id> {
    if xs == [] then ids else RemoveFirst(RemoveEach(ids, xs[..|xs| - 1]), xs[|xs| - 1])
  }

  lemma RemoveEachSnoc(ids: seq<Id>, xs: seq<Id>, x: Id)
    ensures RemoveEach(ids, xs + [x]) == RemoveFirst(RemoveEach(ids, xs), x)
  {
    assert (xs + [x])[..|xs|] == xs;
  }

  /** One more removal extends the prefix of removed ids by one. */
  lemma RemoveEachStep(ids: seq<Id>, xs: seq<Id>, k: nat)
    requires k < |xs|
    ensures RemoveEach(ids, xs[..k + 1]) == RemoveFirst(RemoveEach(ids, xs[..k]), xs[k])
  {
    assert xs[..k + 1] == xs[..k] + [xs[k]];
    RemoveEachSnoc(ids, xs[..k], xs[k]);
  }

  /** The elements of `ids` that are not in `xs`, in order. */
  function Without(ids: seq<Id>, xs: seq<Id>): (r: seq<Id>)
    ensures forall x :: x in r <==> x in ids && x !in xs
  {
    if ids == [] then [] else (if ids[0] in xs then [] else [ids[0]]) + Without(ids[1..], xs)
  }

  predicate NoDup(ids: seq<Id>) {
    forall i, j | 0 <= i < j < |ids| :: ids[i] != ids[j]
  }

  lemma {:induction false} WithoutNoDup(ids: seq<Id>, xs: seq<Id>)
    requires NoDup(ids)
    ensures NoDup(Without(ids, xs))
  {
    if ids != [] {
      WithoutNoDup(ids[1..], xs);
      assert ids[0] !in ids[1..];
    }
  }

  /** Dropping an element that does not occur changes nothing. */
  lemma {:induction false} WithoutAbsent(ids: seq<Id>, xs: seq<Id>, x: Id)
    requires x !in ids
    ensures Without(ids, xs + [x]) == Without(ids, xs)
  {
    if ids != [] {
      WithoutAbsent(ids[1..], xs, x);
    }
  }

  /** The first occurrence in a list with a known head. */
  lemma IndexOfCons(y: Id, w: seq<Id>, x: Id)
    ensures IndexOf([y] + w, x) == if y == x then 0 else if IndexOf(w, x) == -1 then -1 else IndexOf(w, x) + 1
  {
    assert ([y] + w)[0] == y && ([y] + w)[1..] == w;
  }

  /** Splicing past a known head splices the tail. */
  lemma SpliceCons(y: Id, w: seq<Id>, i: nat)
    requires i < |w|
    ensures SpliceAt([y] + w, i + 1) == [y] + SpliceAt(w, i)
  {
    var l := [y] + w;
    assert l[..i + 1] == [y] + w[..i];
    assert l[i + 2..] == w[i + 1..];
  }

  /** Removing the first occurrence from a list with a known head. */
  lemma RemoveFirstCons(y: Id, w: seq<Id>, x: Id)
    ensures RemoveFirst([y] + w, x) == if y == x then w else [y] + RemoveFirst(w, x)
  {
    IndexOfCons(y, w, x);
    if y == x {
      assert ([y] + w)[1..] == w;
    } else if IndexOf(w, x) != -1 {
      SpliceCons(y, w, IndexOf(w, x));
    }
  }

  /** On a list without repeats, removing one more id's first occurrence is filtering it out. */
  lemma {:induction false} RemoveFirstWithout(ids: seq<Id>, xs: seq<Id>, x: Id)
    requires NoDup(ids)
    ensures RemoveFirst(Without(ids, xs), x) == Without(ids, xs + [x])
  {
    if ids == [] {
      assert IndexOf([], x) == -1;
    } else {
      var y, rest := ids[0], ids[1..];
      var w := Without(rest, xs);
      var xs' := xs + [x];
      assert NoDup(rest) && y !in rest;
      if y in xs {
        assert Without(ids, xs) == w;
        assert y in xs';
        assert Without(ids, xs') == Without(rest, xs');
        RemoveFirstWithout(rest, xs, x);
      } else if y == x {
        assert Without(ids, xs) == [x] + w;
        assert y in xs';
        assert Without(ids, xs') == Without(rest, xs');
        WithoutAbsent(rest, xs, x);
        RemoveFirstCons(x, w, x);
      } else {
        assert Without(ids, xs) == [y] + w;
        assert y !in xs';
        assert Without(ids, xs') == [y] + Without(rest, xs');
        RemoveFirstWithout(rest, xs, x);
        RemoveFirstCons(y, w, x);
      }
    }
  }

  /** On a list without repeats, removing first occurrences one by one is a filter. */
  lemma {:induction false} RemoveEachIsWithout(ids: seq<Id>, xs: seq<Id>)
    requires NoDup(ids)
    ensures RemoveEach(ids, xs) == Without(ids, xs)
  {
    if xs == [] {
      assert Without(ids, []) == ids by { WithoutNothing(ids); }
    } else {
      var init := xs[..|xs| - 1];
      RemoveEachIsWithout(ids, init);
      RemoveFirstWithout(ids, init, xs[|xs| - 1]);
      assert init + [xs[|xs| - 1]] == xs;
    }
  }

  lemma {:induction false} WithoutNothing(ids: seq<Id>)
    ensures Without(ids, []) == ids
  {
    if ids != [] {
      WithoutNothing(ids[1..]);
      assert ids == [ids[0]] + ids[1..];
    }
  }

  /** The step-id list as the source updates it for a status other than
      "current": for each removed id, the element at the id's position in the
      CURRENT list is spliced out of the STEP list, then the id's own first
      occurrence in the step list. */
  function AsWrittenStepIds(step: seq<Id>, current: seq<Id>, doomed: seq<Id>): seq<Id> {
    if doomed == [] then step
    else
      var s := AsWrittenStepIds(step, current, doomed[..|doomed| - 1]);
      var x := doomed[|doomed| - 1];
      var i := IndexOf(current, x);
      RemoveFirst(if i >= 0 then SpliceAt(s, i) else s, x)
  }

  /** The lists after a call, with the index taken from the list it splices:
      a removed id leaves whichever list holds it; new ids become the current
      list for "current" and are appended to the step list otherwise. */
  function Bookkeeping(step: seq<Id>, current: seq<Id>, doomed: seq<Id>, status: string, newIds: seq<Id>): (seq<Id>, seq<Id>) {
    if status == CurrentStatus then (RemoveEach(step, doomed), newIds)
    else (RemoveEach(step, doomed) + newIds, RemoveEach(current, doomed))
  }

  // ---------------------------------------------------------------------
  // The invariant

  /** What the two lists promise about the store: every id in them was handed
      out and, while live, carries a class; the lists are disjoint and free of
      repeats; every live class-bearing decoration is in one of them; and no
      step-list decoration carries the current class. */
  ghost predicate Tracked(decos: map<Id, Decoration>, n: nat, step: seq<Id>, current: seq<Id>) {
    && (forall id | id in decos :: id < n)
    && (forall id | id in step :: id < n && (id in decos ==> HasClass(decos[id])))
    && (forall id | id in current :: id < n && (id in decos ==> HasClass(decos[id])))
    && NoDup(step) && NoDup(current)
    && (forall id | id in step :: id !in current)
    && (forall id | id in decos && HasClass(decos[id]) :: id in step || id in current)
    && (forall id | id in step && id in decos :: decos[id].className != Some(StepClass(CurrentStatus)))
  }

  /** The ids handed out from `first` on are new and distinct. */
  lemma FreshIdsDistinct(first: nat, count: nat)
    ensures NoDup(FreshIds(first, count))
    ensures forall id | id in FreshIds(first, count) :: first <= id < first + count
  {
    var ids := FreshIds(first, count);
    forall id | id in ids ensures first <= id < first + count {
      var k :| 0 <= k < |ids| && ids[k] == id;
    }
  }

  /** The members of the lists after a call, on repeat-free lists. */
  lemma BookkeepingMembers(step: seq<Id>, current: seq<Id>, doomed: seq<Id>, status: string, newIds: seq<Id>)
    requires NoDup(step) && NoDup(current)
    ensures var lists := Bookkeeping(step, current, doomed, status, newIds);
      && (forall id :: id in lists.0 <==> (id in step && id !in doomed) || (status != CurrentStatus && id in newIds))
      && (forall id :: id in lists.1 <==>
            if status == CurrentStatus then id in newIds else id in current && id !in doomed)
  {
    RemoveEachIsWithout(step, doomed);
    RemoveEachIsWithout(current, doomed);
  }

  /** The store after a call: what stays, what goes, what is new. */
  lemma DeltaMembers(decos: map<Id, Decoration>, doomed: seq<Id>, n: nat, news: seq<Decoration>)
    requires forall id | id in decos :: id < n
    ensures var after := Delta(decos, doomed, n, news);
      && (forall id :: id in after <==> (id in decos && id !in doomed) || n <= id < n + |news|)
      && (forall id | id in after && id < n :: after[id] == decos[id])
      && (forall id | id in after && id >= n :: after[id] == news[id - n])
  {
    assert forall id | id in doomed :: id in Elems(doomed);
  }

  /** A call keeps the lists repeat-free and disjoint. */
  lemma SetKeepsShape(step: seq<Id>, current: seq<Id>, doomed: seq<Id>, status: string, n: nat, count: nat)
    requires NoDup(step) && NoDup(current) && (forall id | id in step :: id !in current)
    requires (forall id | id in step :: id < n) && (forall id | id in current :: id < n)
    ensures var lists := Bookkeeping(step, current, doomed, status, FreshIds(n, count));
      NoDup(lists.0) && NoDup(lists.1) && forall id | id in lists.0 :: id !in lists.1
  {
    var newIds := FreshIds(n, count);
    FreshIdsDistinct(n, count);
    BookkeepingMembers(step, current, doomed, status, newIds);
    WithoutNoDup(step, doomed);
    WithoutNoDup(current, doomed);
    RemoveEachIsWithout(step, doomed);
    RemoveEachIsWithout(current, doomed);
    if status != CurrentStatus {
      NoDupAppendFresh(Without(step, doomed), newIds, n);
    }
  }

  /** After a call every listed id was handed out and, while live, carries a class. */
  lemma SetKeepsSound(decos: map<Id, Decoration>, n: nat, step: seq<Id>, current: seq<Id>,
                      doomed: seq<Id>, status: string, news: seq<Decoration>)
    requires forall id | id in decos :: id < n
    requires Tracked(decos, n, step, current)
    requires forall k | 0 <= k < |news| :: HasClass(news[k])
    ensures var after := Delta(decos, doomed, n, news);
      var lists := Bookkeeping(step, current, doomed, status, FreshIds(n, |news|));
      forall id | id in lists.0 + lists.1 :: id < n + |news| && (id in after ==> HasClass(after[id]))
  {
    DeltaMembers(decos, doomed, n, news);
    FreshIdsDistinct(n, |news|);
    BookkeepingMembers(step, current, doomed, status, FreshIds(n, |news|));
  }

  /** After a call every live class-bearing decoration is listed. */
  lemma SetKeepsCovered(decos: map<Id, Decoration>, n: nat, step: seq<Id>, current: seq<Id>,
                        doomed: seq<Id>, status: string, news: seq<Decoration>)
    requires forall id | id in decos :: id < n
    requires Tracked(decos, n, step, current)
    requires status == CurrentStatus ==> forall id | id in current :: id in doomed
    ensures var after := Delta(decos, doomed, n, news);
      var lists := Bookkeeping(step, current, doomed, status, FreshIds(n, |news|));
      forall id | id in after && HasClass(after[id]) :: id in lists.0 || id in lists.1
  {
    var newIds := FreshIds(n, |news|);
    DeltaMembers(decos, doomed, n, news);
    BookkeepingMembers(step, current, doomed, status, newIds);
    forall id | n <= id < n + |news| ensures id in newIds {
      assert newIds[id - n] == id;
    }
  }

  /** After a call no step-list decoration carries the current class. */
  lemma SetKeepsCurrentApart(decos: map<Id, Decoration>, n: nat, step: seq<Id>, current: seq<Id>,
                             doomed: seq<Id>, status: string, lines: seq<int>)
    requires forall id | id in decos :: id < n
    requires Tracked(decos, n, step, current)
    ensures var news := StepDecorations(status, lines);
      var after := Delta(decos, doomed, n, news);
      var lists := Bookkeeping(step, current, doomed, status, FreshIds(n, |news|));
      forall id | id in lists.0 && id in after :: after[id].className != Some(StepClass(CurrentStatus))
  {
    var news := StepDecorations(status, lines);
    var after := Delta(decos, doomed, n, news);
    var lists := Bookkeeping(step, current, doomed, status, FreshIds(n, |news|));
    DeltaMembers(decos, doomed, n, news);
    FreshIdsDistinct(n, |news|);
    BookkeepingMembers(step, current, doomed, status, FreshIds(n, |news|));
    forall id | id in lists.0 && id in after
      ensures after[id].className != Some(StepClass(CurrentStatus))
    {
      if id >= n && StepClass(status) == StepClass(CurrentStatus) {
        StepClassInjective(status, CurrentStatus);
      }
    }
  }

  /** A call keeps the invariant (with the list update as corrected). */
  lemma SetKeepsTracked(decos: map<Id, Decoration>, n: nat, step: seq<Id>, current: seq<Id>, lines: seq<int>, status: string)
    requires forall id | id in decos :: id < n
    requires Tracked(decos, n, step, current)
    ensures var doomed := Doomed(decos, n, lines, status, current);
      var news := StepDecorations(status, lines);
      var lists := Bookkeeping(step, current, doomed, status, FreshIds(n, |news|));
      Tracked(Delta(decos, doomed, n, news), n + |news|, lists.0, lists.1)
  {
    var doomed := Doomed(decos, n, lines, status, current);
    var news := StepDecorations(status, lines);
    var after := Delta(decos, doomed, n, news);
    var lists := Bookkeeping(step, current, doomed, status, FreshIds(n, |news|));
    SetKeepsSound(decos, n, step, current, doomed, status, news);
    SetKeepsCovered(decos, n, step, current, doomed, status, news);
    SetKeepsCurrentApart(decos, n, step, current, doomed, status, lines);
    SetKeepsShape(step, current, doomed, status, n, |news|);
    assert forall id | id in after :: id < n + |news| by {
      DeltaMembers(decos, doomed, n, news);
    }
  }

  /** Appending ids at or above `n` to a repeat-free list of ids below `n` keeps it repeat-free. */
  lemma NoDupAppendFresh(ids: seq<Id>, added: seq<Id>, n: nat)
    requires NoDup(ids) && forall id | id in ids :: id < n
    requires NoDup(added) && forall id | id in added :: id >= n
    ensures NoDup(ids + added)
  {
    forall i, j | 0 <= i < j < |ids + added| ensures (ids + added)[i] != (ids + added)[j] {
      if i < |ids| && j >= |ids| {
        assert ids[i] in ids && added[j - |ids|] in added;
      }
    }
  }

  class RuntimeProcessManager {
    var editor: TextModel
    /** The ids of the ordinary step decorations, in insertion order. */
    var stepIds: seq<Id>
    /** The ids of the current-step decorations. */
    var currentIds: seq<Id>

    ghost predicate Valid()
      reads this, editor
    {
      editor.Valid() && Tracked(editor.decorations, editor.nextId, stepIds, currentIds)
    }

    constructor (model: TextModel)
      requires model.Valid() && ClassIds(model.decorations) == {}
      ensures Valid() && editor == model && stepIds == [] && currentIds == []
    {
      editor := model;
      stepIds := [];
      currentIds := [];
      forall id | id in model.decorations ensures !HasClass(model.decorations[id]) {
        assert id !in ClassIds(model.decorations);
      }
    }

    /** Highlights `lines` with status `status`: every class-bearing
        decoration on a listed line is removed (and, for "current", every
        previous current one), then one whole-line decoration per listed line
        is added unless the status is empty. */
    method Set(status: string, lines: seq<int>)
      requires Valid()
      modifies this, editor
      ensures Valid() && editor == old(editor) && editor.lineCount == old(editor.lineCount)
      ensures var doomed := Doomed(old(editor.decorations), old(editor.nextId), lines, status, old(currentIds));
        var news := StepDecorations(status, lines);
        && editor.decorations == Delta(old(editor.decorations), doomed, old(editor.nextId), news)
        && editor.nextId == old(editor.nextId) + |news|
        && (stepIds, currentIds) == Bookkeeping(old(stepIds), old(currentIds), doomed, status, FreshIds(old(editor.nextId), |news|))
    {
      ghost var d0 := editor.decorations;
      ghost var n0 := editor.nextId;
      var oldDecorations, decorations := Collect(status, lines);
      Forget(status, oldDecorations);
      var newDecorations, changed := editor.DeltaDecorations(oldDecorations, decorations);
      if status == CurrentStatus {
        currentIds := newDecorations;
      } else {
        stepIds := stepIds + newDecorations;
      }
      SetKeepsTracked(d0, n0, old(stepIds), old(currentIds), lines, status);
    }

    /** The scan of `Set`: the ids to remove (for "current" the current list
        first) and the decorations to add, line by line. */
    method Collect(status: string, lines: seq<int>) returns (oldDecorations: seq<Id>, decorations: seq<Decoration>)
      requires editor.Valid()
      ensures oldDecorations == Doomed(editor.decorations, editor.nextId, lines, status, currentIds)
      ensures decorations == StepDecorations(status, lines)
    {
      oldDecorations := if status == CurrentStatus then currentIds else [];
      ghost var first := oldDecorations;
      ghost var decos, n := editor.decorations, editor.nextId;
      decorations := [];
      var k := 0;
      while k < |lines|
        invariant 0 <= k <= |lines|
        invariant oldDecorations == first + ScanLines(decos, n, lines[..k])
        invariant decorations == StepDecorations(status, lines[..k])
      {
        var line := lines[k];
        var found := ScanLine(line);
        ScanNext(decos, n, first, lines, k, status);
        oldDecorations := oldDecorations + found;
        if status != "" {
          decorations := decorations + [StepDecoration(status, line)];
        }
        k := k + 1;
      }
      assert lines[..k] == lines;
    }

    /** The class-bearing decorations touching one line, in id order. */
    method ScanLine(line: int) returns (found: seq<Id>)
      requires editor.Valid()
      ensures found == ClassBearing(editor.decorations, IdsOnLineBelow(editor.decorations, editor.nextId, line))
    {
      var onLine := editor.LineDecorations(line);
      found := ClassBearingOf(onLine);
    }

    /** The ids among `onLine` whose decoration carries a class, in order. */
    method ClassBearingOf(onLine: seq<Id>) returns (found: seq<Id>)
      requires forall k | 0 <= k < |onLine| :: onLine[k] in editor.decorations
      ensures found == ClassBearing(editor.decorations, onLine)
    {
      found := [];
      var j := 0;
      while j < |onLine|
        invariant 0 <= j <= |onLine|
        invariant found == ClassBearing(editor.decorations, onLine[..j])
      {
        assert onLine[..j + 1] == onLine[..j] + [onLine[j]];
        ClassBearingSnoc(editor.decorations, onLine[..j], onLine[j]);
        if HasClass(editor.decorations[onLine[j]]) {
          found := found + [onLine[j]];
        }
        j := j + 1;
      }
      assert onLine[..j] == onLine;
    }

    /** `ids.splice(ids.indexOf(x), 1)` behind an `indexOf >= 0` test. */
    static method SpliceOut(ids: seq<Id>, x: Id) returns (r: seq<Id>)
      ensures r == RemoveFirst(ids, x)
    {
      r := ids;
      var i := IndexOf(ids, x);
      if i >= 0 {
        r := ids[..i] + ids[i + 1..];
      }
    }

    /** The list update of `Set`, as corrected: each removed id leaves the
        step list and, unless the status is "current", the current list. */
    method Forget(status: string, oldDecorations: seq<Id>)
      modifies this
      ensures editor == old(editor)
      ensures stepIds == RemoveEach(old(stepIds), oldDecorations)
      ensures currentIds == if status == CurrentStatus then old(currentIds) else RemoveEach(old(currentIds), oldDecorations)
    {
      var steps, current := stepIds, currentIds;
      ghost var steps0, current0 := stepIds, currentIds;
      var k := 0;
      while k < |oldDecorations|
        invariant 0 <= k <= |oldDecorations| && unchanged(this)
        invariant steps == RemoveEach(steps0, oldDecorations[..k])
        invariant status == CurrentStatus ==> current == current0
        invariant status != CurrentStatus ==> current == RemoveEach(current0, oldDecorations[..k])
      {
        var s := oldDecorations[k];
        RemoveEachStep(steps0, oldDecorations, k);
        RemoveEachStep(current0, oldDecorations, k);
        if status != CurrentStatus {
          current := SpliceOut(current, s);
        }
        steps := SpliceOut(steps, s);
        k := k + 1;
      }
      assert oldDecorations[..k] == oldDecorations;
      stepIds, currentIds := steps, current;
    }

    /** The lines 1..lineCount, in ascending order, that carry a decoration
        of the status's class. */
    method Get(status: string) returns (lines: seq<int>)
      requires editor.Valid()
      ensures forall i, j | 0 <= i < j < |lines| :: lines[i] < lines[j]
      ensures forall line :: line in lines <==>
        1 <= line <= editor.lineCount && Marked(editor.decorations, line, StepClass(status))
    {
      var cls := StepClass(status);
      lines := [];
      var lineNumber := 1;
      while lineNumber <= editor.lineCount
        invariant 1 <= lineNumber <= editor.lineCount + 1
        invariant forall i, j | 0 <= i < j < |lines| :: lines[i] < lines[j]
        invariant forall i | 0 <= i < |lines| :: lines[i] < lineNumber
        invariant forall line :: line in lines <==>
          1 <= line < lineNumber && Marked(editor.decorations, line, cls)
      {
        var ids := editor.LineDecorations(lineNumber);
        var some := exists k | 0 <= k < |ids| :: editor.decorations[ids[k]].className == Some(cls);
        if some {
          lines := lines + [lineNumber];
        }
        lineNumber := lineNumber + 1;
      }
    }

    /** Removes every recorded step decoration and empties both lists. */
    method Clear()
      requires Valid()
      modifies this, editor
      ensures Valid() && editor == old(editor) && editor.lineCount == old(editor.lineCount)
      ensures currentIds == [] && stepIds == []
      ensures editor.decorations == old(editor.decorations) - Elems(old(currentIds)) - Elems(old(stepIds))
      ensures ClassIds(editor.decorations) == {}
      ensures editor.nextId == old(editor.nextId)
    {
      DropCurrent();
      DropSteps();
    }

    /** The first delta of `clear`: the current-step decorations go. */
    method DropCurrent()
      requires Valid()
      modifies this, editor
      ensures Valid() && editor == old(editor) && editor.lineCount == old(editor.lineCount)
      ensures currentIds == [] && stepIds == old(stepIds)
      ensures editor.decorations == old(editor.decorations) - Elems(old(currentIds))
      ensures editor.nextId == old(editor.nextId)
    {
      DeltaNothing(editor.decorations, currentIds, editor.nextId);
      var changed;
      currentIds, changed := editor.DeltaDecorations(currentIds, []);
    }

    /** The second delta of `clear`: the ordinary step decorations go. */
    method DropSteps()
      requires Valid()
      modifies this, editor
      ensures Valid() && editor == old(editor) && editor.lineCount == old(editor.lineCount)
      ensures stepIds == [] && currentIds == old(currentIds)
      ensures editor.decorations == old(editor.decorations) - Elems(old(stepIds))
      ensures editor.nextId == old(editor.nextId)
    {
      DeltaNothing(editor.decorations, stepIds, editor.nextId);
      var changed;
      stepIds, changed := editor.DeltaDecorations(stepIds, []);
    }
  }

  // ---------------------------------------------------------------------
  // The list update as written, against the corrected one

  /** An ordinary "complete" step on line 5 (id 0) and the current step on line 3 (id 1). */
  function ExampleStore(): map<Id, Decoration> {
    map[0 := StepDecoration("complete", 5), 1 := StepDecoration(CurrentStatus, 3)]
  }

  /** Only the current step touches line 3. */
  lemma ExampleLine3()
    ensures IdsOnLineBelow(ExampleStore(), 2, 3) == [1]
  {
    assert IdsOnLineBelow(ExampleStore(), 1, 3) == [];
  }

  /** The current step carries a class. */
  lemma ExampleClassBearing()
    ensures ClassBearing(ExampleStore(), [1]) == [1]
  {
    assert [1][..0] == [];
  }

  /** Marking line 3 as an error removes exactly the current step. */
  lemma ExampleDoomed()
    ensures Doomed(ExampleStore(), 2, [3], "error", [1]) == [1]
  {
    ExampleLine3();
    ExampleClassBearing();
    assert [3][..0] == [];
  }

  /** The store after that call: the step on line 5 and the new error step on line 3 (id 2). */
  lemma ExampleAfter()
    ensures Delta(ExampleStore(), [1], 2, StepDecorations("error", [3]))
         == map[0 := StepDecoration("complete", 5), 2 := StepDecoration("error", 3)]
  {
    assert StepDecorations("error", [3]) == [StepDecoration("error", 3)];
    DeltaSingle(ExampleStore(), [1], 2, StepDecoration("error", 3));
    assert Elems([1]) == {1};
  }

  /** The example store satisfies the invariant with step list [0] and current list [1]. */
  lemma ExampleTracked()
    ensures Tracked(ExampleStore(), 2, [0], [1])
  {
    var decos := ExampleStore();
    assert HasClass(decos[0]) && HasClass(decos[1]);
    assert StepClass("complete")[7] != StepClass(CurrentStatus)[7];
  }

  /** The written update splices the step list at the current id's index
      and so loses the step on line 5: the invariant fails, and a clear
      afterwards leaves line 5 highlighted. */
  lemma AsWrittenLosesStep()
    ensures var step := AsWrittenStepIds([0], [1], [1]) + [2];
      var after := Delta(ExampleStore(), [1], 2, StepDecorations("error", [3]));
      && step == [2]
      && !Tracked(after, 3, step, [1])
      && Marked(after - Elems([1]) - Elems(step), 5, StepClass("complete"))
  {
    ExampleAfter();
    var after := map[0 := StepDecoration("complete", 5), 2 := StepDecoration("error", 3)];
    assert [1][..0] == [];
    assert IndexOf([1], 1) == 0;
    assert AsWrittenStepIds([0], [1], [1]) == [];
    assert Elems([2]) == {2} && Elems([1]) == {1};
    assert 0 in after - Elems([1]) - Elems([2]);
    assert HasClass(after[0]) && 0 !in [2] && 0 !in [1];
  }

  /** The corrected update keeps both lists right, and a clear afterwards
      leaves no class-bearing decoration. */
  lemma CorrectedKeepsStep()
    ensures var lists := Bookkeeping([0], [1], [1], "error", [2]);
      var after := Delta(ExampleStore(), [1], 2, StepDecorations("error", [3]));
      && lists == ([0, 2], [])
      && Tracked(after, 3, lists.0, lists.1)
      && ClassIds(after - Elems(lists.1) - Elems(lists.0)) == {}
  {
    ExampleAfter();
    var after := map[0 := StepDecoration("complete", 5), 2 := StepDecoration("error", 3)];
    assert [1][..0] == [];
    assert RemoveEach([0], [1]) == [0];
    assert RemoveEach([1], [1]) == [];
    assert HasClass(after[0]) && HasClass(after[2]);
    assert StepClass("complete")[7] != StepClass(CurrentStatus)[7];
    assert StepClass("error")[6] != StepClass(CurrentStatus)[6];
    assert Elems([0, 2]) == {0, 2};
    assert "error"[0] != CurrentStatus[0];
    assert [0] + [2] == [0, 2];
    assert Bookkeeping([0], [1], [1], "error", [2]) == ([0, 2], []);
    assert NoDup([0, 2]);
    assert forall id | id in after :: id == 0 || id == 2;
    assert Tracked(after, 3, [0, 2], []);
    assert after - Elems([]) - Elems([0, 2]) == map[];
  }

  /** With an ordinary step on line 5 and the current step on line 3,
      marking line 3 as an error removes the current step only; the written
      list update then loses the step on line 5, the corrected one does not. */
  lemma AsWrittenLeavesHighlight()
    ensures Tracked(ExampleStore(), 2, [0], [1])
    ensures Doomed(ExampleStore(), 2, [3], "error", [1]) == [1]
    ensures var after := Delta(ExampleStore(), [1], 2, StepDecorations("error", [3]));
      var step := AsWrittenStepIds([0], [1], [1]) + [2];
      !Tracked(after, 3, step, [1]) && Marked(after - Elems([1]) - Elems(step), 5, StepClass("complete"))
    ensures var after := Delta(ExampleStore(), [1], 2, StepDecorations("error", [3]));
      var lists := Bookkeeping([0], [1], [1], "error", [2]);
      Tracked(after, 3, lists.0, lists.1) && ClassIds(after - Elems(lists.1) - Elems(lists.0)) == {}
  {
    ExampleTracked();
    ExampleDoomed();
    AsWrittenLosesStep();
    CorrectedKeepsStep();
  }
}
