/** The two debugger managers side by side. Both work on the one editor of
    the debugger view: the breakpoint manager through its glyph-margin
    decorations, which carry no inline class, and the step highlighter
    through its whole-line decorations, which always do. Each manager's
    operations keep the other manager's invariant. */
module Session {
  import opened Wrappers
  import opened Decorations
  import B = Breakpoints
  import R = RuntimeSteps

  /** Every decoration of `after` below id `n` was in `before` with the same
      inline class; the ones from `n` on carry no inline class. */
  ghost predicate ClassesKept(before: map<Id, Decoration>, n: nat, after: map<Id, Decoration>) {
    forall id | id in after ::
      if id < n then id in before && after[id].className == before[id].className
      else !HasClass(after[id])
  }

  /** Every decoration of `after` below id `n` was in `before` with the same
      inline class and glyph; the ones from `n` on show neither the hint nor
      the unverified glyph. */
  ghost predicate GlyphsKept(before: map<Id, Decoration>, n: nat, after: map<Id, Decoration>) {
    forall id | id in after ::
      if id < n then id in before && after[id].className == before[id].className && after[id].glyph == before[id].glyph
      else after[id].glyph != Some(B.HintGlyph) && after[id].glyph != Some(B.UnverifiedGlyph)
  }

  /** A store change that keeps the inline classes keeps the step lists' invariant. */
  lemma TrackedKept(before: map<Id, Decoration>, n: nat, after: map<Id, Decoration>, n2: nat,
                    step: seq<Id>, current: seq<Id>)
    requires R.Tracked(before, n, step, current) && ClassesKept(before, n, after)
    requires n <= n2 && forall id | id in after :: id < n2
    ensures R.Tracked(after, n2, step, current)
  {
    forall id | id in after && HasClass(after[id])
      ensures id in step || id in current
    {
      assert id < n && HasClass(before[id]);
    }
  }

  /** A store change that keeps the inline classes and glyphs keeps the
      breakpoint manager's ids class-free and adds no hint or unverified glyph. */
  lemma BooksKept(before: map<Id, Decoration>, n: nat, after: map<Id, Decoration>, n2: nat, owned: set<Id>)
    requires B.Owned(owned, before, n) && GlyphsKept(before, n, after) && n <= n2
    ensures B.Owned(owned, after, n2)
    ensures GlyphIds(after, B.HintGlyph) <= GlyphIds(before, B.HintGlyph)
    ensures GlyphIds(after, B.UnverifiedGlyph) <= GlyphIds(before, B.UnverifiedGlyph)
  {
    forall id | id in GlyphIds(after, B.HintGlyph)
      ensures id in GlyphIds(before, B.HintGlyph)
    {
      assert id < n;
    }
    forall id | id in GlyphIds(after, B.UnverifiedGlyph)
      ensures id in GlyphIds(before, B.UnverifiedGlyph)
    {
      assert id < n;
    }
  }

  /** The step highlighter's delta adds whole-line decorations whose glyph,
      if any, is the current-step glyph. */
  lemma StepDeltaKeepsGlyphs(decos: map<Id, Decoration>, doomed: seq<Id>, n: nat, status: string, lines: seq<int>)
    requires forall id | id in decos :: id < n
    ensures GlyphsKept(decos, n, Delta(decos, doomed, n, R.StepDecorations(status, lines)))
  {
    assert R.CurrentGlyph[6] != B.HintGlyph[6] && R.CurrentGlyph[6] != B.UnverifiedGlyph[6];
  }

  /** Removing decorations keeps what the others carry. */
  lemma RemovalKeeps(decos: map<Id, Decoration>, n: nat, gone: set<Id>)
    requires forall id | id in decos :: id < n
    ensures GlyphsKept(decos, n, decos - gone) && ClassesKept(decos, n, decos - gone)
  {
  }

  /** The breakpoint manager's deltas add decorations without an inline class. */
  lemma GlyphDeltaKeepsClasses(decos: map<Id, Decoration>, oldIds: seq<Id>, n: nat, news: seq<Decoration>)
    requires forall id | id in decos :: id < n
    requires forall k | 0 <= k < |news| :: !HasClass(news[k])
    ensures ClassesKept(decos, n, Delta(decos, oldIds, n, news))
  {
    var after := Delta(decos, oldIds, n, news);
    forall id | id in after && n <= id
      ensures !HasClass(after[id])
    {
      assert after[id] == news[id - n];
    }
  }

  /** `set` beside the breakpoint manager keeps its invariant. The breakpoint
      manager's handler listens to the shared model, so it runs after `set`'s
      delta whenever that delta changed the store, and its report goes to the
      host when a verified entry has drifted. */
  method SetBesideBreakpoints(bm: B.BreakpointManager, rm: R.RuntimeProcessManager, status: string, lines: seq<int>)
    returns (report: Option<seq<B.Breakpoint>>)
    requires bm.Valid() && rm.Valid() && bm.editor == rm.editor
    modifies rm, rm.editor
    ensures bm.Valid() && rm.Valid()
    ensures report.Some? <==>
      rm.editor.decorations != old(rm.editor.decorations) && B.Drifted(bm.entries, rm.editor.decorations)
    ensures report.Some? ==> report.value == B.Packet(bm.entries, rm.editor.decorations)
  {
    var before := rm.editor.decorations;
    ghost var n0 := rm.editor.nextId;
    ghost var doomed := R.Doomed(before, n0, lines, status, rm.currentIds);
    rm.Set(status, lines);
    StepDeltaKeepsGlyphs(before, doomed, n0, status, lines);
    BooksKept(before, n0, rm.editor.decorations, rm.editor.nextId,
              Elems(bm.hintIds) + Elems(bm.unverifiedIds) + Elems(bm.breakpointIds));
    report := Notify(bm, before);
  }

  /** `clear` beside the breakpoint manager keeps its invariant. Each of its
      two deltas that changed the store runs the breakpoint manager's handler,
      so `first` and `second` are the reports after the current-step delta
      and after the step delta. */
  method ClearBesideBreakpoints(bm: B.BreakpointManager, rm: R.RuntimeProcessManager)
    returns (first: Option<seq<B.Breakpoint>>, second: Option<seq<B.Breakpoint>>)
    requires bm.Valid() && rm.Valid() && bm.editor == rm.editor
    modifies rm, rm.editor
    ensures bm.Valid() && rm.Valid()
    ensures rm.currentIds == [] && rm.stepIds == []
    ensures var mid := old(rm.editor.decorations) - Elems(old(rm.currentIds));
      && rm.editor.decorations == mid - Elems(old(rm.stepIds))
      && (first.Some? <==> mid != old(rm.editor.decorations) && B.Drifted(bm.entries, mid))
      && (first.Some? ==> first.value == B.Packet(bm.entries, mid))
      && (second.Some? <==> rm.editor.decorations != mid && B.Drifted(bm.entries, rm.editor.decorations))
      && (second.Some? ==> second.value == B.Packet(bm.entries, rm.editor.decorations))
  {
    var d0 := rm.editor.decorations;
    ghost var n0 := rm.editor.nextId;
    ghost var owned := Elems(bm.hintIds) + Elems(bm.unverifiedIds) + Elems(bm.breakpointIds);
    ghost var current := Elems(rm.currentIds);
    ghost var step := Elems(rm.stepIds);
    rm.DropCurrent();
    RemovalKeeps(d0, n0, current);
    BooksKept(d0, n0, rm.editor.decorations, n0, owned);
    first := Notify(bm, d0);
    var d1 := rm.editor.decorations;
    rm.DropSteps();
    RemovalKeeps(d1, n0, step);
    BooksKept(d1, n0, rm.editor.decorations, n0, owned);
    second := Notify(bm, d1);
  }

  /** The breakpoint manager's handler as the shared model runs it: only
      when the store differs from `before`. */
  method Notify(bm: B.BreakpointManager, before: map<Id, Decoration>) returns (report: Option<seq<B.Breakpoint>>)
    requires bm.Valid()
    ensures report.Some? <==> bm.editor.decorations != before && B.Drifted(bm.entries, bm.editor.decorations)
    ensures report.Some? ==> report.value == B.Packet(bm.entries, bm.editor.decorations)
  {
    if bm.editor.decorations != before {
      report := bm.DecorationsChanged();
    } else {
      report := None;
    }
  }

  /** Taking the host's breakpoint list keeps the step highlighter's invariant. */
  method DecorateBesideSteps(bm: B.BreakpointManager, rm: R.RuntimeProcessManager, bps: seq<B.Breakpoint>)
    requires bm.Valid() && rm.Valid() && bm.editor == rm.editor
    modifies bm, bm.editor
    ensures bm.Valid() && rm.Valid()
  {
    ghost var d0, n0 := bm.editor.decorations, bm.editor.nextId;
    ghost var gone := Elems(bm.unverifiedIds);
    ghost var news := B.BreakpointDecorations(bps);
    ghost var mid := Delta(d0, bm.breakpointIds, n0, news);
    bm.DecorateBreakpoints(bps);
    GlyphDeltaKeepsClasses(d0, old(bm.breakpointIds), n0, news);
    TrackedKept(d0, n0, mid, n0 + |news|, rm.stepIds, rm.currentIds);
    RemovalKeeps(mid, n0 + |news|, gone);
    TrackedKept(mid, n0 + |news|, bm.editor.decorations, bm.editor.nextId, rm.stepIds, rm.currentIds);
  }

  /** A mouse move over the editor keeps the step highlighter's invariant. */
  method MouseMoveBesideSteps(bm: B.BreakpointManager, rm: R.RuntimeProcessManager, onGlyphMargin: bool, line: int)
    returns (report: Option<seq<B.Breakpoint>>)
    requires bm.Valid() && rm.Valid() && bm.editor == rm.editor
    modifies bm, bm.editor
    ensures bm.Valid() && rm.Valid()
  {
    ghost var d0, n0 := bm.editor.decorations, bm.editor.nextId;
    ghost var shown := onGlyphMargin && B.IndexByLine(bm.entries, line) == -1;
    ghost var news := if shown then [B.GlyphDecoration(line, B.HintGlyph)] else [];
    report := bm.MouseMove(onGlyphMargin, line);
    GlyphDeltaKeepsClasses(d0, old(bm.hintIds), n0, news);
    TrackedKept(d0, n0, bm.editor.decorations, bm.editor.nextId, rm.stepIds, rm.currentIds);
  }

  /** A breakpoint toggle keeps the step highlighter's invariant. */
  method ToggleBesideSteps(bm: B.BreakpointManager, rm: R.RuntimeProcessManager, line: int)
    requires bm.Valid() && rm.Valid() && bm.editor == rm.editor
    modifies bm, bm.editor
    ensures bm.Valid() && rm.Valid()
  {
    ghost var d0, n0 := bm.editor.decorations, bm.editor.nextId;
    ghost var gone := Elems(bm.hintIds) + Elems(bm.unverifiedIds);
    ghost var placed := B.IndexByLine(bm.entries, line) == -1;
    bm.Toggle(line);
    if placed {
      var unverified := B.GlyphDecoration(line, B.UnverifiedGlyph);
      assert bm.editor.decorations == (d0 - gone)[n0 := unverified];
      DeltaSingle(d0 - gone, [], n0, unverified);
      assert (d0 - gone) - Elems([]) == d0 - gone;
      RemovalKeeps(d0, n0, gone);
      TrackedKept(d0, n0, d0 - gone, n0, rm.stepIds, rm.currentIds);
      GlyphDeltaKeepsClasses(d0 - gone, [], n0, [unverified]);
      TrackedKept(d0 - gone, n0, bm.editor.decorations, bm.editor.nextId, rm.stepIds, rm.currentIds);
    }
  }

  /** A mouse press, which toggles over the glyph margin, keeps the step
      highlighter's invariant. */
  method MouseDownBesideSteps(bm: B.BreakpointManager, rm: R.RuntimeProcessManager, onGlyphMargin: bool, line: int)
    requires bm.Valid() && rm.Valid() && bm.editor == rm.editor
    modifies bm, bm.editor
    ensures bm.Valid() && rm.Valid()
  {
    if onGlyphMargin {
      ToggleBesideSteps(bm, rm, line);
    }
  }
}
