/** The editor's decoration store, as the breakpoint and runtime-highlight
    managers see it: a map from decoration ids to decorations, the
    `deltaDecorations` call that replaces some of them, and the environment
    actions (text edits) that move or drop a decoration's anchor. */
module Decorations {

  import opened Wrappers

  /** Decoration ids; the editor hands out fresh ones on every delta. */
  type Id = nat

  /** A text range: 1-based start and end line and column. */
  datatype Range = Range(startLine: int, startColumn: int, endLine: int, endColumn: int)

  /** The collapsed range at column 1 of a line, as every manager builds it. */
  function LineRange(line: int): Range {
    Range(line, 1, line, 1)
  }

  /** A decoration: its live range, its inline class and its glyph-margin class. */
  datatype Decoration = Decoration(range: Range, className: Option<string>, glyph: Option<string>)

  /** Whether a decoration's range touches a line (what a per-line query returns). */
  predicate OnLine(d: Decoration, line: int) {
    d.range.startLine <= line <= d.range.endLine
  }

  /** A truthy inline class: present and non-empty. */
  predicate HasClass(d: Decoration) {
    d.className.Some? && d.className.value != ""
  }

  /** The ids of the decorations that carry a truthy inline class. */
  function ClassIds(decos: map<Id, Decoration>): set<Id> {
    set id | id in decos && HasClass(decos[id])
  }

  /** The ids of the decorations drawn with a given glyph-margin class. */
  function GlyphIds(decos: map<Id, Decoration>, glyph: string): set<Id> {
    set id | id in decos && decos[id].glyph == Some(glyph)
  }

  /** The elements of an id list, as a set. */
  function Elems(ids: seq<Id>): set<Id> {
    set id | id in ids
  }

  /** The decorations a delta adds: `news[k]` under id `first + k`. */
  function Added(first: nat, news: seq<Decoration>): (m: map<Id, Decoration>)
    ensures forall id :: id in m <==> first <= id < first + |news|
    ensures forall id | id in m :: m[id] == news[id - first]
  {
    if news == [] then map[]
    else Added(first, news[..|news| - 1])[first + |news| - 1 := news[|news| - 1]]
  }

  /** The ids `first, first + 1, ...` handed out for `count` new decorations. */
  function FreshIds(first: nat, count: nat): (ids: seq<Id>)
    ensures |ids| == count
    ensures forall k | 0 <= k < count :: ids[k] == first + k
  {
    seq(count, k requires 0 <= k => first + k)
  }

  /** The store after a delta that drops `oldIds` and adds `news` from id `first` on. */
  function Delta(decos: map<Id, Decoration>, oldIds: seq<Id>, first: nat, news: seq<Decoration>): map<Id, Decoration> {
    (decos - Elems(oldIds)) + Added(first, news)
  }

  /** Ids in ascending order below `n` whose decoration touches `line`. */
  function IdsOnLineBelow(decos: map<Id, Decoration>, n: nat, line: int): (ids: seq<Id>)
    ensures forall id :: id in ids <==> id < n && id in decos && OnLine(decos[id], line)
    ensures forall i, j | 0 <= i < j < |ids| :: ids[i] < ids[j]
  {
    if n == 0 then []
    else
      var below := IdsOnLineBelow(decos, n - 1, line);
      assert forall i | 0 <= i < |below| :: below[i] < n - 1 by {
        forall i | 0 <= i < |below| ensures below[i] < n - 1 {
          assert below[i] in below;
        }
      }
      if n - 1 in decos && OnLine(decos[n - 1], line) then below + [n - 1] else below
  }

  /** A delta changes the glyph-drawn ids exactly by dropping `oldIds` and
      adding the new decorations that carry the glyph. */
  lemma GlyphIdsDelta(decos: map<Id, Decoration>, oldIds: seq<Id>, first: nat, news: seq<Decoration>, glyph: string)
    requires forall id | id in decos :: id < first
    ensures GlyphIds(Delta(decos, oldIds, first, news), glyph) ==
      (GlyphIds(decos, glyph) - Elems(oldIds)) + (set id | id in Added(first, news) && Added(first, news)[id].glyph == Some(glyph))
  {
  }

  /** A delta changes the class-bearing ids exactly by dropping `oldIds` and
      adding the new decorations that carry a class. */
  lemma ClassIdsDelta(decos: map<Id, Decoration>, oldIds: seq<Id>, first: nat, news: seq<Decoration>)
    requires forall id | id in decos :: id < first
    ensures ClassIds(Delta(decos, oldIds, first, news)) ==
      (ClassIds(decos) - Elems(oldIds)) + (set id | id in Added(first, news) && HasClass(Added(first, news)[id]))
  {
  }

  /** The `k`-th new decoration of a delta is live under id `first + k`. */
  lemma DeltaAddedAt(decos: map<Id, Decoration>, oldIds: seq<Id>, first: nat, news: seq<Decoration>, k: nat)
    requires k < |news|
    ensures first + k in Delta(decos, oldIds, first, news)
    ensures Delta(decos, oldIds, first, news)[first + k] == news[k]
  {
  }

  /** A delta that adds nothing only drops `oldIds`. */
  lemma DeltaNothing(decos: map<Id, Decoration>, oldIds: seq<Id>, first: nat)
    ensures Delta(decos, oldIds, first, []) == decos - Elems(oldIds)
  {
    assert Added(first, []) == map[];
  }

  /** A delta that adds one decoration puts it under id `first`. */
  lemma DeltaSingle(decos: map<Id, Decoration>, oldIds: seq<Id>, first: nat, d: Decoration)
    ensures Delta(decos, oldIds, first, [d]) == (decos - Elems(oldIds))[first := d]
  {
    assert Added(first, [d]) == map[first := d];
  }

  /** A single new decoration gets exactly the id `first`. */
  lemma FreshOne(first: nat)
    ensures FreshIds(first, 1) == [first] && Elems([first]) == {first}
  {
  }

  /** A delta whose new decorations do not carry `glyph` adds no id drawn with it. */
  lemma GlyphIdsShrink(decos: map<Id, Decoration>, oldIds: seq<Id>, first: nat, news: seq<Decoration>, glyph: string)
    requires forall id | id in decos :: id < first
    requires forall k | 0 <= k < |news| :: news[k].glyph != Some(glyph)
    ensures GlyphIds(Delta(decos, oldIds, first, news), glyph) <= GlyphIds(decos, glyph) - Elems(oldIds)
  {
    GlyphIdsDelta(decos, oldIds, first, news, glyph);
  }

  /** Dropping every id drawn with `glyph` and adding one decoration leaves
      exactly that decoration's id drawn with `glyph`, if it carries it. */
  lemma GlyphIdsReplaced(decos: map<Id, Decoration>, oldIds: seq<Id>, first: nat, d: Decoration, glyph: string)
    requires forall id | id in decos :: id < first
    requires GlyphIds(decos, glyph) <= Elems(oldIds)
    ensures GlyphIds(Delta(decos, oldIds, first, [d]), glyph) == if d.glyph == Some(glyph) then {first} else {}
  {
    DeltaSingle(decos, oldIds, first, d);
  }

  class TextModel {
    /** The live decorations; a text edit may move or drop any of them. */
    var decorations: map<Id, Decoration>
    /** The next id the store will hand out. */
    var nextId: nat
    /** The number of lines of the document. */
    var lineCount: nat

    ghost predicate Valid()
      reads this
    {
      forall id | id in decorations :: id < nextId
    }

    constructor (lines: nat)
      ensures Valid() && decorations == map[] && nextId == 0 && lineCount == lines
    {
      decorations := map[];
      nextId := 0;
      lineCount := lines;
    }

    /** The live range of a decoration; `None` once the anchor is gone. */
    function DecorationRange(id: Id): Option<Range>
      reads this
    {
      if id in decorations then Some(decorations[id].range) else None
    }

    /** The decorations touching a line, in ascending id order. */
    function LineDecorations(line: int): (ids: seq<Id>)
      requires Valid()
      reads this
      ensures forall id :: id in ids <==> id in decorations && OnLine(decorations[id], line)
      ensures forall i, j | 0 <= i < j < |ids| :: ids[i] < ids[j]
    {
      IdsOnLineBelow(decorations, nextId, line)
    }

    /** Removes the decorations `oldIds` (ids no longer present are ignored)
        and adds `news`, returning their fresh ids in input order; `changed`
        says whether the store changed, which is when the editor notifies
        its decoration listeners. */
    method DeltaDecorations(oldIds: seq<Id>, news: seq<Decoration>) returns (ids: seq<Id>, changed: bool)
      requires Valid()
      modifies this
      ensures Valid() && lineCount == old(lineCount)
      ensures ids == FreshIds(old(nextId), |news|) && nextId == old(nextId) + |news|
      ensures forall id | id in ids :: id !in old(decorations)
      ensures decorations == Delta(old(decorations), oldIds, old(nextId), news)
      ensures changed <==> decorations != old(decorations)
    {
      ghost var before := decorations;
      changed := |news| > 0 || exists k | 0 <= k < |oldIds| :: oldIds[k] in decorations;
      ids := FreshIds(nextId, |news|);
      decorations := Delta(decorations, oldIds, nextId, news);
      if |news| > 0 {
        assert nextId in decorations && nextId !in before;
      } else if k :| 0 <= k < |oldIds| && oldIds[k] in before {
        assert oldIds[k] !in decorations;
      } else {
        assert decorations == before;
      }
      nextId := nextId + |news|;
    }

    /** Environment action: a text edit moves the anchor of decoration `id`
        to `to`, or drops it when `to` is `None`. */
    method Drift(id: Id, to: Option<Range>)
      requires Valid()
      modifies this
      ensures Valid() && nextId == old(nextId) && lineCount == old(lineCount)
      ensures decorations ==
        if id !in old(decorations) then old(decorations)
        else if to.None? then old(decorations) - {id}
        else old(decorations)[id := old(decorations)[id].(range := to.value)]
    {
      if id in decorations {
        if to.None? {
          decorations := decorations - {id};
        } else {
          decorations := decorations[id := decorations[id].(range := to.value)];
        }
      }
    }

    /** Environment action: a text edit changes the number of lines. */
    method SetLineCount(lines: nat)
      modifies this
      ensures decorations == old(decorations) && nextId == old(nextId) && lineCount == lines
    {
      lineCount := lines;
    }
  }
}
