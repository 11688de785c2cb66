/** Breakpoint bookkeeping of the debugger view: the tracked breakpoint
    entries beside the editor's decoration store, the hover hint, optimistic
    (unverified) breakpoints, the host's authoritative breakpoint list, drift
    detection after edits, and the deduplicated report sent to the host. */
module Breakpoints {
  import opened Wrappers
  import opened Decorations

  /** A breakpoint as the host sends and receives it. */
  datatype Breakpoint = Breakpoint(lineNumber: int, enable: bool)

  /** A tracked breakpoint: its decoration, the range cached when it was
      placed, whether it is enabled, and whether the host has confirmed it. */
  datatype Entry = Entry(id: Id, range: Range, enable: bool, verified: bool)

  const EnabledGlyph: string := "debug-breakpoint-glyph"
  const DisabledGlyph: string := "debug-breakpoint-disabled-glyph"
  const HintGlyph: string := "debug-breakpoint-hint-glyph"
  const UnverifiedGlyph: string := "debug-breakpoint-unverified-glyph"

  /** A glyph-margin decoration at column 1 of a line, without inline class. */
  function GlyphDecoration(line: int, glyph: string): Decoration {
    Decoration(LineRange(line), None, Some(glyph))
  }

  /** The decoration drawn for a host breakpoint. */
  function BreakpointDecoration(bp: Breakpoint): Decoration {
    GlyphDecoration(bp.lineNumber, if bp.enable then EnabledGlyph else DisabledGlyph)
  }

  /** The verified entries built from the host's list and the ids the editor
      gave to their decorations, position by position. */
  function Verified(ids: seq<Id>, bps: seq<Breakpoint>): (entries: seq<Entry>)
    requires |ids| == |bps|
    ensures |entries| == |bps|
  {
    seq(|bps|, i requires 0 <= i < |bps| => Entry(ids[i], LineRange(bps[i].lineNumber), bps[i].enable, true))
  }

  /** The index of the first entry whose CACHED start line is `line`, or -1. */
  function IndexByLine(entries: seq<Entry>, line: int): (i: int)
    ensures -1 <= i < |entries|
    ensures i >= 0 ==> entries[i].range.startLine == line
    ensures forall j | 0 <= j < |entries| && (i == -1 || j < i) :: entries[j].range.startLine != line
  {
    if entries == [] then -1
    else if entries[0].range.startLine == line then 0
    else
      var i := IndexByLine(entries[1..], line);
      if i == -1 then -1 else i + 1
  }

  /** The tracked list after a toggle of `line`: a new unverified entry with
      decoration `newId` when no entry is cached at that line, otherwise the
      first such entry removed. */
  function AfterToggle(entries: seq<Entry>, line: int, newId: Id): seq<Entry> {
    var i := IndexByLine(entries, line);
    if i == -1 then entries + [Entry(newId, LineRange(line), true, false)]
    else entries[..i] + entries[i + 1..]
  }

  /** Whether the report already holds a breakpoint at `line`. */
  predicate HasLine(packet: seq<Breakpoint>, line: int) {
    exists k | 0 <= k < |packet| :: packet[k].lineNumber == line
  }

  /** Whether an entry's decoration is still live. */
  predicate Live(decos: map<Id, Decoration>, e: Entry) {
    e.id in decos
  }

  /** The live start line of an entry's decoration. */
  function LiveLine(decos: map<Id, Decoration>, e: Entry): int
    requires Live(decos, e)
  {
    decos[e.id].range.startLine
  }

  /** The report sent to the host: entries in list order, skipping those
      whose decoration is gone, one breakpoint per live start line, with the
      `enable` of the first entry seen at that line. */
  function Packet(entries: seq<Entry>, decos: map<Id, Decoration>): seq<Breakpoint>
  {
    if entries == [] then []
    else
      var packet := Packet(entries[..|entries| - 1], decos);
      var e := entries[|entries| - 1];
      if Live(decos, e) && !HasLine(packet, LiveLine(decos, e))
      then packet + [Breakpoint(LiveLine(decos, e), e.enable)]
      else packet
  }

  /** Entry `i` is live at `line` and no earlier entry is. */
  predicate FirstAt(entries: seq<Entry>, decos: map<Id, Decoration>, i: int, line: int)
    requires 0 <= i < |entries|
  {
    && Live(decos, entries[i]) && LiveLine(decos, entries[i]) == line
    && forall j | 0 <= j < i :: !(Live(decos, entries[j]) && LiveLine(decos, entries[j]) == line)
  }

  /** A verified entry whose live range is present and differs from its cached range. */
  predicate DriftedAt(decos: map<Id, Decoration>, e: Entry) {
    e.verified && Live(decos, e) && decos[e.id].range != e.range
  }

  predicate Drifted(entries: seq<Entry>, decos: map<Id, Decoration>) {
    exists i | 0 <= i < |entries| :: DriftedAt(decos, entries[i])
  }

  // ---------------------------------------------------------------------
  // Properties of the report

  /** No line is reported twice. */
  lemma {:induction false} PacketLinesDistinct(entries: seq<Entry>, decos: map<Id, Decoration>)
    ensures forall a, b | 0 <= a < b < |Packet(entries, decos)| ::
      Packet(entries, decos)[a].lineNumber != Packet(entries, decos)[b].lineNumber
  {
    if entries != [] {
      var init := entries[..|entries| - 1];
      PacketLinesDistinct(init, decos);
      var p0 := Packet(init, decos);
      var p := Packet(entries, decos);
      forall a, b | 0 <= a < b < |p| ensures p[a].lineNumber != p[b].lineNumber {
        assert p[a] == p0[a];
        if b < |p0| {
          assert p[b] == p0[b];
        } else {
          assert !HasLine(p0, p[b].lineNumber);
        }
      }
    }
  }

  /** Two entries that are both first at a line are the same entry. */
  lemma FirstAtUnique(entries: seq<Entry>, decos: map<Id, Decoration>, i: int, j: int, line: int)
    requires 0 <= i < |entries| && 0 <= j < |entries|
    requires FirstAt(entries, decos, i, line) && FirstAt(entries, decos, j, line)
    ensures i == j
  {
  }

  /** Being first at a line does not depend on the entries after it. */
  lemma FirstAtPrefix(entries: seq<Entry>, decos: map<Id, Decoration>, i: int, line: int)
    requires 0 <= i < |entries| - 1
    ensures FirstAt(entries, decos, i, line) <==> FirstAt(entries[..|entries| - 1], decos, i, line)
  {
  }

  /** Every reported breakpoint comes from the first live entry at its line
      and carries that entry's `enable`. */
  lemma {:induction false} PacketSound(entries: seq<Entry>, decos: map<Id, Decoration>)
    ensures forall k | 0 <= k < |Packet(entries, decos)| :: exists i | 0 <= i < |entries| ::
      FirstAt(entries, decos, i, Packet(entries, decos)[k].lineNumber) && Packet(entries, decos)[k].enable == entries[i].enable
  {
    if entries == [] {
      assert Packet(entries, decos) == [];
    } else {
      var init := entries[..|entries| - 1];
      PacketSound(init, decos);
      var p0 := Packet(init, decos);
      var p := Packet(entries, decos);
      forall k | 0 <= k < |p|
        ensures exists i | 0 <= i < |entries| ::
          FirstAt(entries, decos, i, p[k].lineNumber) && p[k].enable == entries[i].enable
      {
        if k < |p0| {
          assert p[k] == p0[k];
          var i :| 0 <= i < |init| && FirstAt(init, decos, i, p0[k].lineNumber) && p0[k].enable == init[i].enable;
          FirstAtPrefix(entries, decos, i, p[k].lineNumber);
        } else {
          var n := |entries| - 1;
          PacketComplete(init, decos);
          assert forall j | 0 <= j < n :: entries[j] == init[j];
          assert FirstAt(entries, decos, n, p[k].lineNumber);
        }
      }
    }
  }

  /** Every live entry's line is reported. */
  lemma {:induction false} PacketComplete(entries: seq<Entry>, decos: map<Id, Decoration>)
    ensures forall i | 0 <= i < |entries| && Live(decos, entries[i]) ::
      HasLine(Packet(entries, decos), LiveLine(decos, entries[i]))
  {
    if entries != [] {
      var init := entries[..|entries| - 1];
      PacketComplete(init, decos);
      var p0 := Packet(init, decos);
      var p := Packet(entries, decos);
      forall i | 0 <= i < |entries| && Live(decos, entries[i])
        ensures HasLine(p, LiveLine(decos, entries[i]))
      {
        if i < |init| {
          assert entries[i] == init[i];
          var k :| 0 <= k < |p0| && p0[k].lineNumber == LiveLine(decos, init[i]);
          assert p[k] == p0[k];
        } else if !HasLine(p0, LiveLine(decos, entries[i])) {
          assert p[|p0|].lineNumber == LiveLine(decos, entries[i]);
        } else {
          var k :| 0 <= k < |p0| && p0[k].lineNumber == LiveLine(decos, entries[i]);
          assert p[k] == p0[k];
        }
      }
    }
  }

  /** The first live entry at each line is reported with its own `enable`. */
  lemma FirstEntryWins(entries: seq<Entry>, decos: map<Id, Decoration>, i: int, line: int)
    requires 0 <= i < |entries| && FirstAt(entries, decos, i, line)
    ensures Breakpoint(line, entries[i].enable) in Packet(entries, decos)
  {
    var p := Packet(entries, decos);
    PacketComplete(entries, decos);
    PacketSound(entries, decos);
    assert HasLine(p, LiveLine(decos, entries[i]));
    var k :| 0 <= k < |p| && p[k].lineNumber == line;
    var i' :| 0 <= i' < |entries| && FirstAt(entries, decos, i', line) && p[k].enable == entries[i'].enable;
    FirstAtUnique(entries, decos, i, i', line);
    assert p[k] == Breakpoint(line, entries[i].enable);
  }

  /** Reported lines keep the list order of their first live entries. */
  lemma {:induction false} PacketOrdered(entries: seq<Entry>, decos: map<Id, Decoration>, a: int, b: int, ia: int, ib: int)
    requires var p := Packet(entries, decos); 0 <= a < b < |p|
    requires 0 <= ia < |entries| && 0 <= ib < |entries|
    requires FirstAt(entries, decos, ia, Packet(entries, decos)[a].lineNumber)
    requires FirstAt(entries, decos, ib, Packet(entries, decos)[b].lineNumber)
    ensures ia < ib
  {
    var n := |entries| - 1;
    var init := entries[..n];
    var p0 := Packet(init, decos);
    var p := Packet(entries, decos);
    PacketSound(init, decos);
    assert p[a] == p0[a];
    var ja :| 0 <= ja < |init| && FirstAt(init, decos, ja, p0[a].lineNumber) && p0[a].enable == init[ja].enable;
    FirstAtPrefix(entries, decos, ja, p[a].lineNumber);
    FirstAtUnique(entries, decos, ia, ja, p[a].lineNumber);
    if b < |p0| {
      assert p[b] == p0[b];
      var jb :| 0 <= jb < |init| && FirstAt(init, decos, jb, p0[b].lineNumber) && p0[b].enable == init[jb].enable;
      FirstAtPrefix(entries, decos, jb, p[b].lineNumber);
      FirstAtUnique(entries, decos, ib, jb, p[b].lineNumber);
      PacketOrdered(init, decos, a, b, ja, jb);
    } else {
      // p[b] was appended for the last entry: no earlier entry is live at its line.
      if ib < n {
        assert Live(decos, init[ib]);
        PacketComplete(init, decos);
        assert false;
      }
    }
  }

  /** Entries live at lines 5, 5 and 8 report lines 5 and 8, the first 5 winning. */
  lemma PacketExample(ids: seq<Id>, decos: map<Id, Decoration>)
    requires |ids| == 3 && ids[0] in decos && ids[1] in decos && ids[2] in decos
    requires decos[ids[0]].range.startLine == 5 && decos[ids[1]].range.startLine == 5
    requires decos[ids[2]].range.startLine == 8
    ensures Packet([Entry(ids[0], LineRange(5), true, true), Entry(ids[1], LineRange(5), false, true),
                    Entry(ids[2], LineRange(8), false, true)], decos)
      == [Breakpoint(5, true), Breakpoint(8, false)]
  {
    var e0, e1, e2 := Entry(ids[0], LineRange(5), true, true), Entry(ids[1], LineRange(5), false, true),
                      Entry(ids[2], LineRange(8), false, true);
    assert [e0][..0] == [];
    assert Packet([e0], decos) == [Breakpoint(5, true)];
    assert [e0, e1][..1] == [e0];
    assert [Breakpoint(5, true)][0].lineNumber == 5;
    assert Packet([e0, e1], decos) == [Breakpoint(5, true)];
    assert [e0, e1, e2][..2] == [e0, e1];
  }

  /** Right after the host's list is decorated, the report gives the list
      back (when its lines are distinct). */
  lemma {:induction false} ReportAfterDecorate(ids: seq<Id>, bps: seq<Breakpoint>, decos: map<Id, Decoration>)
    requires |ids| == |bps|
    requires forall i | 0 <= i < |ids| :: ids[i] in decos && decos[ids[i]].range == LineRange(bps[i].lineNumber)
    requires forall i, j | 0 <= i < j < |bps| :: bps[i].lineNumber != bps[j].lineNumber
    ensures Packet(Verified(ids, bps), decos) == bps
  {
    if bps != [] {
      var n := |bps| - 1;
      assert Verified(ids, bps)[..n] == Verified(ids[..n], bps[..n]);
      ReportAfterDecorate(ids[..n], bps[..n], decos);
      assert bps[..n] + [bps[n]] == bps;
    }
  }

  /** The entries built from the host's list have not drifted right after
      their decorations are placed, whatever else the store drops. */
  lemma HostListNotDrifted(decos: map<Id, Decoration>, oldIds: seq<Id>, first: nat, bps: seq<Breakpoint>, dropped: set<Id>)
    ensures !Drifted(Verified(FreshIds(first, |bps|), bps), Delta(decos, oldIds, first, BreakpointDecorations(bps)) - dropped)
  {
    var news := BreakpointDecorations(bps);
    var placed := Delta(decos, oldIds, first, news);
    forall i | 0 <= i < |bps|
      ensures first + i in placed && placed[first + i].range == LineRange(bps[i].lineNumber)
    {
      DeltaAddedAt(decos, oldIds, first, news, i);
    }
    PlacedNotDrifted(placed, dropped, first, bps);
  }

  /** Entries whose decorations were placed at their own lines have not
      drifted, whatever is dropped afterwards. */
  lemma PlacedNotDrifted(placed: map<Id, Decoration>, dropped: set<Id>, first: nat, bps: seq<Breakpoint>)
    requires forall i | 0 <= i < |bps| :: first + i in placed && placed[first + i].range == LineRange(bps[i].lineNumber)
    ensures !Drifted(Verified(FreshIds(first, |bps|), bps), placed - dropped)
  {
    var entries := Verified(FreshIds(first, |bps|), bps);
    forall i | 0 <= i < |entries| ensures !DriftedAt(placed - dropped, entries[i]) {
      assert entries[i].id == first + i && entries[i].range == LineRange(bps[i].lineNumber);
    }
  }

  /** The decorations of a host list carry no inline class and neither the
      hint nor the unverified glyph. */
  lemma HostGlyphs(bps: seq<Breakpoint>)
    ensures forall k | 0 <= k < |bps| :: !HasClass(BreakpointDecorations(bps)[k])
    ensures forall k | 0 <= k < |bps| ::
      BreakpointDecorations(bps)[k].glyph != Some(HintGlyph) && BreakpointDecorations(bps)[k].glyph != Some(UnverifiedGlyph)
  {
  }

  /** Toggling a line with no cached entry and then toggling it again gives
      the tracked list back. */
  lemma ToggleTwiceRestores(entries: seq<Entry>, line: int, id1: Id, id2: Id)
    requires IndexByLine(entries, line) == -1
    ensures AfterToggle(AfterToggle(entries, line, id1), line, id2) == entries
  {
    var added := AfterToggle(entries, line, id1);
    assert IndexByLine(added, line) == |entries| by {
      var i := IndexByLine(added, line);
      assert added[|entries|].range.startLine == line;
      assert forall j | 0 <= j < |entries| :: added[j] == entries[j];
    }
    assert added[..|entries|] == entries;
  }

  /** A set contained in the elements of a list of at most one id has at most one element. */
  lemma AtMostOne(s: set<Id>, ids: seq<Id>)
    requires s <= Elems(ids) && |ids| <= 1
    ensures |s| <= 1
  {
    if |ids| == 1 {
      assert Elems(ids) == {ids[0]};
      if ids[0] in s {
        assert s == {ids[0]};
      } else {
        assert s == {};
      }
    } else {
      assert Elems(ids) == {};
    }
  }

  /** Ids handed out before `nextId` whose decorations, while live, carry no inline class. */
  ghost predicate Owned(ids: set<Id>, decos: map<Id, Decoration>, nextId: nat) {
    forall id | id in ids :: id < nextId && (id in decos ==> !HasClass(decos[id]))
  }

  /** A delta that drops owned ids and adds class-free decorations keeps the
      class-bearing ids and extends the owned set by the fresh ids. */
  lemma OwnedDelta(owned: set<Id>, decos: map<Id, Decoration>, oldIds: seq<Id>, first: nat, news: seq<Decoration>)
    requires forall id | id in decos :: id < first
    requires Owned(owned, decos, first) && Elems(oldIds) <= owned
    requires forall k | 0 <= k < |news| :: !HasClass(news[k])
    ensures Owned(owned + Elems(FreshIds(first, |news|)), Delta(decos, oldIds, first, news), first + |news|)
    ensures ClassIds(Delta(decos, oldIds, first, news)) == ClassIds(decos)
  {
    ClassIdsDelta(decos, oldIds, first, news);
    var added := Added(first, news);
    assert (set id | id in added && HasClass(added[id])) == {};
    assert ClassIds(decos) * Elems(oldIds) == {};
    var ids := FreshIds(first, |news|);
    forall id | id in Elems(ids) ensures first <= id < first + |news| {
      var k :| 0 <= k < |ids| && ids[k] == id;
    }
  }

  class BreakpointManager {
    var editor: TextModel
    /** The tracked entries, in insertion order. */
    var entries: seq<Entry>
    /** The decorations of the host's last breakpoint list. */
    var breakpointIds: seq<Id>
    /** The hover hint decoration, if any. */
    var hintIds: seq<Id>
    /** The last optimistic breakpoint decoration, if any. */
    var unverifiedIds: seq<Id>
    /** Lowered while the manager changes decorations itself. */
    var checkChanges: bool

    /** The manager's invariant, with the drift check switched on. */
    ghost predicate Valid()
      reads this, editor
    {
      Tracking() && checkChanges
    }

    /** The bookkeeping half of the invariant: at most one hint and one
        unverified decoration, each recorded in its list, and every recorded
        id was handed out earlier and never carries an inline class. */
    ghost predicate Tracking()
      reads this, editor
    {
      && editor.Valid()
      && |hintIds| <= 1 && |unverifiedIds| <= 1
      && GlyphIds(editor.decorations, HintGlyph) <= Elems(hintIds)
      && GlyphIds(editor.decorations, UnverifiedGlyph) <= Elems(unverifiedIds)
      && Owned(Elems(hintIds) + Elems(unverifiedIds) + Elems(breakpointIds), editor.decorations, editor.nextId)
    }

    constructor (model: TextModel)
      requires model.Valid()
      requires GlyphIds(model.decorations, HintGlyph) == {} && GlyphIds(model.decorations, UnverifiedGlyph) == {}
      ensures Valid() && editor == model
      ensures entries == [] && breakpointIds == [] && hintIds == [] && unverifiedIds == []
    {
      editor := model;
      entries := [];
      breakpointIds := [];
      hintIds := [];
      unverifiedIds := [];
      checkChanges := true;
    }

    /** The editor holds at most one hint and at most one unverified decoration. */
    lemma SingleHintAndUnverified()
      requires Valid()
      ensures |GlyphIds(editor.decorations, HintGlyph)| <= 1
      ensures |GlyphIds(editor.decorations, UnverifiedGlyph)| <= 1
    {
      AtMostOne(GlyphIds(editor.decorations, HintGlyph), hintIds);
      AtMostOne(GlyphIds(editor.decorations, UnverifiedGlyph), unverifiedIds);
    }

    /** The report the host receives: the current breakpoints, deduplicated by live line. */
    method UpdateBreakpoints() returns (packet: seq<Breakpoint>)
      ensures packet == Packet(entries, editor.decorations)
    {
      packet := [];
      var k := 0;
      while k < |entries|
        invariant 0 <= k <= |entries|
        invariant packet == Packet(entries[..k], editor.decorations)
      {
        var e := entries[k];
        var range := editor.DecorationRange(e.id);
        if range.Some? {
          var found := exists j | 0 <= j < |packet| :: packet[j].lineNumber == range.value.startLine;
          if !found {
            packet := packet + [Breakpoint(range.value.startLine, e.enable)];
          }
        }
        assert entries[..k + 1][..k] == entries[..k];
        k := k + 1;
      }
      assert entries[..k] == entries;
    }

    /** The editor's decoration-change notification: while the flag is up,
        re-report once if some verified entry has drifted from its cached range. */
    method DecorationsChanged() returns (report: Option<seq<Breakpoint>>)
      ensures report ==
        if checkChanges && Drifted(entries, editor.decorations)
        then Some(Packet(entries, editor.decorations)) else None
    {
      if !checkChanges {
        return None;
      }
      var somethingChanged := false;
      var k := 0;
      while k < |entries|
        invariant 0 <= k <= |entries|
        invariant somethingChanged <==> exists i | 0 <= i < k :: DriftedAt(editor.decorations, entries[i])
      {
        if !somethingChanged && entries[k].verified {
          var range := editor.DecorationRange(entries[k].id);
          if range.Some? && range.value != entries[k].range {
            somethingChanged := true;
          }
        }
        k := k + 1;
      }
      if somethingChanged {
        var packet := UpdateBreakpoints();
        report := Some(packet);
      } else {
        report := None;
      }
    }

    /** The host's authoritative list replaces every tracked entry with a
        verified one and removes the optimistic decoration. */
    method DecorateBreakpoints(bps: seq<Breakpoint>)
      requires Valid()
      modifies this, editor
      ensures Valid() && editor == old(editor)
      ensures breakpointIds == FreshIds(old(editor.nextId), |bps|)
      ensures entries == Verified(breakpointIds, bps)
      ensures unverifiedIds == [] && hintIds == old(hintIds)
      ensures editor.decorations ==
        Delta(old(editor.decorations), old(breakpointIds), old(editor.nextId), BreakpointDecorations(bps))
          - Elems(old(unverifiedIds))
      ensures GlyphIds(editor.decorations, UnverifiedGlyph) == {}
      ensures !Drifted(entries, editor.decorations)
      ensures ClassIds(editor.decorations) == ClassIds(old(editor.decorations))
      ensures editor.nextId == old(editor.nextId) + |bps| && editor.lineCount == old(editor.lineCount)
    {
      var decorations := HostDecorations(bps);
      ghost var d0 := editor.decorations;
      ghost var n0 := editor.nextId;
      HostGlyphs(bps);
      ShowHostList(decorations);
      entries := Verified(breakpointIds, bps);
      HostListNotDrifted(d0, old(breakpointIds), n0, bps, Elems(old(unverifiedIds)));
    }

    /** The glyph decorations for a host list, one per breakpoint, in order. */
    static method HostDecorations(bps: seq<Breakpoint>) returns (decorations: seq<Decoration>)
      ensures decorations == BreakpointDecorations(bps)
    {
      decorations := [];
      var k := 0;
      while k < |bps|
        invariant 0 <= k <= |bps| && |decorations| == k
        invariant forall i | 0 <= i < k :: decorations[i] == BreakpointDecoration(bps[i])
      {
        decorations := decorations + [BreakpointDecoration(bps[k])];
        k := k + 1;
      }
    }

    /** The decoration half of taking the host's list: its glyphs replace the
        previous list's and the optimistic decoration is removed, with the
        drift check switched off around both changes. */
    method ShowHostList(decorations: seq<Decoration>)
      requires Valid()
      requires forall k | 0 <= k < |decorations| :: !HasClass(decorations[k])
      requires forall k | 0 <= k < |decorations| ::
        decorations[k].glyph != Some(HintGlyph) && decorations[k].glyph != Some(UnverifiedGlyph)
      modifies this, editor
      ensures Valid() && editor == old(editor) && entries == old(entries)
      ensures breakpointIds == FreshIds(old(editor.nextId), |decorations|)
      ensures unverifiedIds == [] && hintIds == old(hintIds)
      ensures editor.decorations ==
        Delta(old(editor.decorations), old(breakpointIds), old(editor.nextId), decorations) - Elems(old(unverifiedIds))
      ensures GlyphIds(editor.decorations, UnverifiedGlyph) == {}
      ensures ClassIds(editor.decorations) == ClassIds(old(editor.decorations))
      ensures editor.nextId == old(editor.nextId) + |decorations| && editor.lineCount == old(editor.lineCount)
    {
      ghost var d0 := editor.decorations;
      ghost var n0 := editor.nextId;
      ghost var owned := Elems(hintIds) + Elems(unverifiedIds) + Elems(breakpointIds);
      OwnedDelta(owned, d0, breakpointIds, n0, decorations);
      GlyphIdsShrink(d0, breakpointIds, n0, decorations, HintGlyph);
      GlyphIdsShrink(d0, breakpointIds, n0, decorations, UnverifiedGlyph);
      checkChanges := false;
      var ids, changed := editor.DeltaDecorations(breakpointIds, decorations);
      breakpointIds := ids;
      if changed {
        var report := DecorationsChanged();
        assert report == None;
      }
      assert Tracking();
      DropUnverifiedQuietly();
      checkChanges := true;
    }

    /** Removes the optimistic decoration while the drift check is off. */
    method DropUnverifiedQuietly()
      requires Tracking() && !checkChanges
      modifies this, editor
      ensures Tracking() && !checkChanges && editor == old(editor)
      ensures entries == old(entries) && breakpointIds == old(breakpointIds) && hintIds == old(hintIds)
      ensures unverifiedIds == [] && editor.decorations == old(editor.decorations) - Elems(old(unverifiedIds))
      ensures GlyphIds(editor.decorations, UnverifiedGlyph) == {}
      ensures ClassIds(editor.decorations) == ClassIds(old(editor.decorations))
      ensures editor.nextId == old(editor.nextId) && editor.lineCount == old(editor.lineCount)
    {
      ghost var d0 := editor.decorations;
      ghost var n0 := editor.nextId;
      OwnedDelta(Elems(hintIds) + Elems(unverifiedIds) + Elems(breakpointIds), d0, unverifiedIds, n0, []);
      GlyphIdsShrink(d0, unverifiedIds, n0, [], HintGlyph);
      GlyphIdsShrink(d0, unverifiedIds, n0, [], UnverifiedGlyph);
      DeltaNothing(d0, unverifiedIds, n0);
      var ids, changed := editor.DeltaDecorations(unverifiedIds, []);
      unverifiedIds := ids;
      if changed {
        var report := DecorationsChanged();
        assert report == None;
      }
    }

    /** Mouse movement: a hint is drawn at the hovered line when the pointer is
        over the glyph margin and no entry is cached at that line; otherwise
        the hint is cleared. The hint change notifies the drift check, which
        runs with the flag up. */
    method MouseMove(onGlyphMargin: bool, line: int) returns (report: Option<seq<Breakpoint>>)
      requires Valid()
      modifies this, editor
      ensures Valid() && editor == old(editor)
      ensures entries == old(entries) && breakpointIds == old(breakpointIds) && unverifiedIds == old(unverifiedIds)
      ensures var shown := onGlyphMargin && IndexByLine(entries, line) == -1;
        && hintIds == (if shown then [old(editor.nextId)] else [])
        && editor.decorations == Delta(old(editor.decorations), old(hintIds), old(editor.nextId),
                                       if shown then [GlyphDecoration(line, HintGlyph)] else [])
      ensures GlyphIds(editor.decorations, HintGlyph) == Elems(hintIds)
      ensures report.Some? <==> editor.decorations != old(editor.decorations) && Drifted(entries, editor.decorations)
      ensures report.Some? ==> report.value == Packet(entries, editor.decorations)
      ensures ClassIds(editor.decorations) == ClassIds(old(editor.decorations))
      ensures editor.nextId >= old(editor.nextId) && editor.lineCount == old(editor.lineCount)
    {
      var decorations: seq<Decoration> := [];
      if onGlyphMargin {
        if IndexByLine(entries, line) == -1 {
          decorations := [GlyphDecoration(line, HintGlyph)];
        }
      }
      ghost var d0 := editor.decorations;
      ghost var n0 := editor.nextId;
      OwnedDelta(Elems(hintIds) + Elems(unverifiedIds) + Elems(breakpointIds), d0, hintIds, n0, decorations);
      GlyphIdsShrink(d0, hintIds, n0, decorations, UnverifiedGlyph);
      if decorations == [] {
        GlyphIdsShrink(d0, hintIds, n0, decorations, HintGlyph);
      } else {
        GlyphIdsReplaced(d0, hintIds, n0, decorations[0], HintGlyph);
      }
      FreshOne(n0);
      var ids, changed := editor.DeltaDecorations(hintIds, decorations);
      hintIds := ids;
      assert Elems(hintIds) == if decorations == [] then {} else {n0} by {
        if decorations == [] {
          assert hintIds == [];
        }
      }
      if changed {
        report := DecorationsChanged();
      } else {
        report := None;
      }
    }

    /** Toggles the breakpoint at `line`, looked up by CACHED start line. A
        new entry is optimistic: the hint is cleared and the new unverified
        decoration replaces the previous one. The report to the host is a
        separate, later step (UpdateBreakpoints). */
    method Toggle(line: int)
      requires Valid()
      modifies this, editor
      ensures Valid() && editor == old(editor)
      ensures entries == AfterToggle(old(entries), line, old(editor.nextId))
      ensures breakpointIds == old(breakpointIds)
      ensures IndexByLine(old(entries), line) == -1 ==>
        && hintIds == [] && unverifiedIds == [old(editor.nextId)]
        && editor.decorations ==
             (old(editor.decorations) - Elems(old(hintIds)) - Elems(old(unverifiedIds)))
               [old(editor.nextId) := GlyphDecoration(line, UnverifiedGlyph)]
        && GlyphIds(editor.decorations, HintGlyph) == {}
        && GlyphIds(editor.decorations, UnverifiedGlyph) == {old(editor.nextId)}
      ensures IndexByLine(old(entries), line) != -1 ==>
        && editor.decorations == old(editor.decorations) && editor.nextId == old(editor.nextId)
        && hintIds == old(hintIds) && unverifiedIds == old(unverifiedIds)
      ensures ClassIds(editor.decorations) == ClassIds(old(editor.decorations))
      ensures editor.nextId >= old(editor.nextId) && editor.lineCount == old(editor.lineCount)
    {
      var index := IndexByLine(entries, line);
      if index == -1 {
        PlaceUnverified(line);
        entries := entries + [Entry(unverifiedIds[0], LineRange(line), true, false)];
      } else {
        entries := entries[..index] + entries[index + 1..];
      }
    }

    /** The optimistic half of a toggle: clear the hint, then replace the
        previous unverified decoration by one at `line`, with the drift check
        switched off around both changes. */
    method PlaceUnverified(line: int)
      requires Valid()
      modifies this, editor
      ensures Valid() && editor == old(editor)
      ensures entries == old(entries) && breakpointIds == old(breakpointIds)
      ensures hintIds == [] && unverifiedIds == [old(editor.nextId)]
      ensures editor.decorations ==
        (old(editor.decorations) - Elems(old(hintIds)) - Elems(old(unverifiedIds)))
          [old(editor.nextId) := GlyphDecoration(line, UnverifiedGlyph)]
      ensures GlyphIds(editor.decorations, HintGlyph) == {}
      ensures GlyphIds(editor.decorations, UnverifiedGlyph) == {old(editor.nextId)}
      ensures ClassIds(editor.decorations) == ClassIds(old(editor.decorations))
      ensures editor.nextId == old(editor.nextId) + 1 && editor.lineCount == old(editor.lineCount)
    {
      checkChanges := false;
      ClearHintQuietly();
      ghost var d1 := editor.decorations;
      ghost var n0 := editor.nextId;
      var unverified := GlyphDecoration(line, UnverifiedGlyph);
      OwnedDelta(Elems(hintIds) + Elems(unverifiedIds) + Elems(breakpointIds), d1, unverifiedIds, n0, [unverified]);
      GlyphIdsReplaced(d1, unverifiedIds, n0, unverified, UnverifiedGlyph);
      GlyphIdsReplaced(d1, unverifiedIds, n0, unverified, HintGlyph);
      DeltaSingle(d1, unverifiedIds, n0, unverified);
      FreshOne(n0);
      var ids, changed := editor.DeltaDecorations(unverifiedIds, [unverified]);
      unverifiedIds := ids;
      if changed {
        var report := DecorationsChanged();
        assert report == None;
      }
      checkChanges := true;
      assert Elems(hintIds) == {};
    }

    /** Removes the hover hint while the drift check is off. */
    method ClearHintQuietly()
      requires Tracking() && !checkChanges
      modifies this, editor
      ensures Tracking() && !checkChanges && editor == old(editor)
      ensures entries == old(entries) && breakpointIds == old(breakpointIds) && unverifiedIds == old(unverifiedIds)
      ensures hintIds == [] && editor.decorations == old(editor.decorations) - Elems(old(hintIds))
      ensures GlyphIds(editor.decorations, HintGlyph) == {}
      ensures ClassIds(editor.decorations) == ClassIds(old(editor.decorations))
      ensures editor.nextId == old(editor.nextId) && editor.lineCount == old(editor.lineCount)
    {
      ghost var d0 := editor.decorations;
      ghost var n0 := editor.nextId;
      OwnedDelta(Elems(hintIds) + Elems(unverifiedIds) + Elems(breakpointIds), d0, hintIds, n0, []);
      GlyphIdsShrink(d0, hintIds, n0, [], HintGlyph);
      GlyphIdsShrink(d0, hintIds, n0, [], UnverifiedGlyph);
      DeltaNothing(d0, hintIds, n0);
      var ids, changed := editor.DeltaDecorations(hintIds, []);
      hintIds := ids;
      if changed {
        var report := DecorationsChanged();
        assert report == None;
      }
    }

    /** A mouse press toggles the breakpoint only over the glyph margin. */
    method MouseDown(onGlyphMargin: bool, line: int)
      requires Valid()
      modifies this, editor
      ensures Valid() && editor == old(editor)
      ensures entries == if onGlyphMargin then AfterToggle(old(entries), line, old(editor.nextId)) else old(entries)
      ensures breakpointIds == old(breakpointIds)
      ensures !onGlyphMargin ==>
        && editor.decorations == old(editor.decorations) && editor.nextId == old(editor.nextId)
        && hintIds == old(hintIds) && unverifiedIds == old(unverifiedIds)
      ensures onGlyphMargin && IndexByLine(old(entries), line) == -1 ==>
        && hintIds == [] && unverifiedIds == [old(editor.nextId)]
        && editor.decorations ==
             (old(editor.decorations) - Elems(old(hintIds)) - Elems(old(unverifiedIds)))
               [old(editor.nextId) := GlyphDecoration(line, UnverifiedGlyph)]
        && GlyphIds(editor.decorations, HintGlyph) == {}
        && GlyphIds(editor.decorations, UnverifiedGlyph) == {old(editor.nextId)}
      ensures onGlyphMargin && IndexByLine(old(entries), line) != -1 ==>
        && editor.decorations == old(editor.decorations) && editor.nextId == old(editor.nextId)
        && hintIds == old(hintIds) && unverifiedIds == old(unverifiedIds)
      ensures ClassIds(editor.decorations) == ClassIds(old(editor.decorations))
      ensures editor.nextId >= old(editor.nextId) && editor.lineCount == old(editor.lineCount)
    {
      if onGlyphMargin {
        Toggle(line);
      }
    }
  }

  /** The decorations drawn for a host list, in order. */
  function BreakpointDecorations(bps: seq<Breakpoint>): (ds: seq<Decoration>)
    ensures |ds| == |bps|
    ensures forall i | 0 <= i < |bps| :: ds[i] == BreakpointDecoration(bps[i])
  {
    seq(|bps|, i requires 0 <= i < |bps| => BreakpointDecoration(bps[i]))
  }
}
