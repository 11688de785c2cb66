/** The step catalogue of the turbo-gherkin language provider: the keyword
    phrase table, the element and variable tables, the step list keyed by a
    canonical form of each step's first line, and the relabelling that
    substitutes element values into placeholders and splits every step into
    its keyword prefix and its label. */
module StepCatalog {

  import opened Wrappers
  import opened Text

  /** A variable as stored: the key as the payload spelled it and the value's text. */
  datatype Variable = Variable(name: string, value: string)

  /** One step of a step-list payload. */
  datatype StepPayload = StepPayload(insertText: string, sortText: string, documentation: string, section: string, kind: int)

  /** A catalogued step: the words of its first line, its remaining lines,
      the payload's fields, and the label and keyword prefix that
      relabelling computes (absent until then). */
  datatype Step = Step(
    head: seq<string>, body: seq<string>,
    documentation: string, insertText: string, sortText: string, section: string, kind: int,
    caption: Option<string>, keyword: Option<string>)

  /** The word helpers of the provider base, whose code is not part of this
      model: `findKeyword` looks a word list up in the keyword table and
      answers with the matching phrase or nothing. */
  datatype Base = Base(
    splitWords: string -> seq<string>,
    filterWords: seq<string> -> seq<string>,
    key: seq<string> -> string,
    findKeyword: (seq<seq<string>>, seq<string>) -> Option<seq<string>>)

  // ---------------------------------------------------------------------
  // The keyword table: phrases ordered by descending word count

  /** Each payload phrase lowercased and split on single spaces, in payload order. */
  function Phrases(list: seq<string>): (ks: seq<seq<string>>)
    ensures |ks| == |list|
    ensures forall i | 0 <= i < |list| :: ks[i] == Split(Lower(list[i]), ' ')
  {
    seq(|list|, i requires 0 <= i < |list| => Split(Lower(list[i]), ' '))
  }

  /** Phrases ordered by non-increasing word count. */
  ghost predicate ByCount(ks: seq<seq<string>>) {
    forall i, j | 0 <= i < j < |ks| :: |ks[i]| >= |ks[j]|
  }

  /** The phrases of exactly `c` words, in order: what a stable sort by word count must keep. */
  function WithCount(ks: seq<seq<string>>, c: nat): seq<seq<string>> {
    if ks == [] then []
    else (if |ks[0]| == c then [ks[0]] else []) + WithCount(ks[1..], c)
  }

  /** Puts `x` before the first phrase of `s` with no more words than it. */
  function Insert(x: seq<string>, s: seq<seq<string>>): seq<seq<string>> {
    if s == [] || |x| >= |s[0]| then [x] + s
    else [s[0]] + Insert(x, s[1..])
  }

  /** The stable sort by descending word count that `Array.prototype.sort`
      performs with the comparator `b.length - a.length`. */
  function SortByCount(ks: seq<seq<string>>): seq<seq<string>> {
    if ks == [] then [] else Insert(ks[0], SortByCount(ks[1..]))
  }

  lemma {:induction false} InsertPermutes(x: seq<string>, s: seq<seq<string>>)
    ensures multiset(Insert(x, s)) == multiset(s) + multiset{x}
  {
    if s != [] && |x| < |s[0]| {
      InsertPermutes(x, s[1..]);
      assert s == [s[0]] + s[1..];
    }
  }

  lemma {:induction false} InsertOrdered(x: seq<string>, s: seq<seq<string>>)
    requires ByCount(s)
    ensures ByCount(Insert(x, s))
  {
    if s != [] && |x| < |s[0]| {
      InsertOrdered(x, s[1..]);
      InsertPermutes(x, s[1..]);
      var t := Insert(x, s[1..]);
      forall j | 0 <= j < |t| ensures |s[0]| >= |t[j]| {
        assert t[j] in multiset(t);
        if t[j] != x {
          assert t[j] in multiset(s[1..]);
          var k :| 0 <= k < |s[1..]| && s[1..][k] == t[j];
          assert s[k + 1] == t[j];
        }
      }
    }
  }

  lemma {:induction false} InsertStable(x: seq<string>, s: seq<seq<string>>, c: nat)
    requires ByCount(s)
    ensures WithCount(Insert(x, s), c) == (if |x| == c then [x] else []) + WithCount(s, c)
  {
    if s == [] || |x| >= |s[0]| {
      assert ([x] + s)[1..] == s;
    } else {
      InsertStable(x, s[1..], c);
      var t := Insert(x, s[1..]);
      assert ([s[0]] + t)[1..] == t;
    }
  }

  /** The sorted table is ordered by word count and is a permutation of the input. */
  lemma {:induction false} SortByCountOrdered(ks: seq<seq<string>>)
    ensures ByCount(SortByCount(ks))
    ensures multiset(SortByCount(ks)) == multiset(ks)
  {
    if ks != [] {
      SortByCountOrdered(ks[1..]);
      InsertOrdered(ks[0], SortByCount(ks[1..]));
      InsertPermutes(ks[0], SortByCount(ks[1..]));
      assert ks == [ks[0]] + ks[1..];
    }
  }

  /** The sort is stable: phrases of equal word count keep their input order. */
  lemma {:induction false} SortByCountStable(ks: seq<seq<string>>, c: nat)
    ensures WithCount(SortByCount(ks), c) == WithCount(ks, c)
  {
    if ks != [] {
      SortByCountStable(ks[1..], c);
      SortByCountOrdered(ks[1..]);
      InsertStable(ks[0], SortByCount(ks[1..]), c);
    }
  }

  /** Every word of every stored phrase is lowercase and free of spaces. */
  ghost predicate PlainWords(ks: seq<seq<string>>) {
    forall i, j | 0 <= i < |ks| && 0 <= j < |ks[i]| :: IsLower(ks[i][j]) && ' ' !in ks[i][j]
  }

  lemma PhrasesPlain(list: seq<string>)
    ensures PlainWords(Phrases(list))
  {
    forall i | 0 <= i < |list| ensures forall j | 0 <= j < |Phrases(list)[i]| :: IsLower(Phrases(list)[i][j]) {
      LowerIdempotent(list[i]);
      SplitLower(Lower(list[i]), ' ');
    }
  }

  lemma PermutationPlain(ks: seq<seq<string>>, ps: seq<seq<string>>)
    requires PlainWords(ps) && multiset(ks) == multiset(ps)
    ensures PlainWords(ks)
  {
    forall i | 0 <= i < |ks| ensures ks[i] in ps {
      assert ks[i] in multiset(ks);
    }
  }

  // ---------------------------------------------------------------------
  // Keyed tables: assignments in payload order, later ones overwrite

  /** The table after assigning each entry's value under its key, in order. */
  function Upsert<V>(m: map<string, V>, es: seq<(string, V)>): map<string, V> {
    if es == [] then m
    else Upsert(m, es[..|es| - 1])[es[|es| - 1].0 := es[|es| - 1].1]
  }

  /** The index of the last entry with key `k`, if any. */
  function LastWith<V>(es: seq<(string, V)>, k: string): (r: Option<nat>)
    ensures r.Some? ==> r.value < |es| && es[r.value].0 == k
    ensures r.Some? ==> forall j | r.value < j < |es| :: es[j].0 != k
    ensures r.None? ==> forall j | 0 <= j < |es| :: es[j].0 != k
  {
    if es == [] then None
    else if es[|es| - 1].0 == k then Some(|es| - 1)
    else LastWith(es[..|es| - 1], k)
  }

  /** A key is in the table after the assignments iff it was before or some
      entry carries it; its value is the last such entry's, or the old one. */
  lemma {:induction false} UpsertLookup<V>(m: map<string, V>, es: seq<(string, V)>, k: string)
    ensures k in Upsert(m, es) <==> k in m || LastWith(es, k).Some?
    ensures LastWith(es, k).Some? ==> Upsert(m, es)[k] == es[LastWith(es, k).value].1
    ensures LastWith(es, k).None? && k in m ==> Upsert(m, es)[k] == m[k]
  {
    if es != [] {
      UpsertLookup(m, es[..|es| - 1], k);
    }
  }

  /** The element entries of a payload: lowercased key, value as given. */
  function ElementEntries(values: seq<(string, string)>): (es: seq<(string, string)>)
    ensures |es| == |values|
    ensures forall i | 0 <= i < |values| :: es[i] == (Lower(values[i].0), values[i].1)
  {
    seq(|values|, i requires 0 <= i < |values| => (Lower(values[i].0), values[i].1))
  }

  /** The variable entries of a payload: lowercased key, the key as given and the value. */
  function VariableEntries(values: seq<(string, string)>): (es: seq<(string, Variable)>)
    ensures |es| == |values|
    ensures forall i | 0 <= i < |values| :: es[i] == (Lower(values[i].0), Variable(values[i].0, values[i].1))
  {
    seq(|values|, i requires 0 <= i < |values| => (Lower(values[i].0), Variable(values[i].0, values[i].1)))
  }

  /** Keys that are lowercased stay lowercased after assigning lowercased keys. */
  lemma UpsertLowerKeys<V>(m: map<string, V>, es: seq<(string, V)>)
    requires forall k | k in m :: IsLower(k)
    requires forall i | 0 <= i < |es| :: IsLower(es[i].0)
    ensures forall k | k in Upsert(m, es) :: IsLower(k)
  {
    forall k | k in Upsert(m, es) ensures IsLower(k) {
      UpsertLookup(m, es, k);
    }
  }

  lemma ElementKeysLower(values: seq<(string, string)>)
    ensures forall i | 0 <= i < |values| :: IsLower(ElementEntries(values)[i].0)
  {
    forall i | 0 <= i < |values| ensures IsLower(Lower(values[i].0)) {
      LowerIdempotent(values[i].0);
    }
  }

  lemma VariableKeysLower(values: seq<(string, string)>)
    ensures forall i | 0 <= i < |values| :: IsLower(VariableEntries(values)[i].0)
  {
    forall i | 0 <= i < |values| ensures IsLower(Lower(values[i].0)) {
      LowerIdempotent(values[i].0);
    }
  }

  // ---------------------------------------------------------------------
  // Steps

  /** A payload step as stored: its first line split into words, the other
      lines as its body, the payload's fields, no label yet. */
  function Stored(base: Base, p: StepPayload): (s: Step)
    ensures s.head == base.splitWords(Split(p.insertText, '\n')[0])
    ensures s.body == Split(p.insertText, '\n')[1..]
    ensures [Split(p.insertText, '\n')[0]] + s.body == Split(p.insertText, '\n')
    ensures s.caption.None? && s.keyword.None? && s.insertText == p.insertText
  {
    var lines := Split(p.insertText, '\n');
    assert lines == lines[..1] + lines[1..];
    Step(base.splitWords(lines[0]), lines[1..], p.documentation, p.insertText, p.sortText, p.section, p.kind, None, None)
  }

  /** The canonical key a step is stored under: `key(filterWords(splitWords(firstLine)))`. */
  function StepKey(base: Base, p: StepPayload): string {
    base.key(base.filterWords(Stored(base, p).head))
  }

  /** The step entries of a payload, in payload order. */
  function StepEntries(base: Base, list: seq<StepPayload>): (es: seq<(string, Step)>)
    ensures |es| == |list|
    ensures forall i | 0 <= i < |list| :: es[i] == (StepKey(base, list[i]), Stored(base, list[i]))
  {
    seq(|list|, i requires 0 <= i < |list| => (StepKey(base, list[i]), Stored(base, list[i])))
  }

  /** A placeholder word: `"x"` with no inner `"`, `'x'` with no inner `'`,
      or `<x>` with no inner `<`. */
  predicate Placeholder(word: string) {
    && |word| >= 2
    && var inner := word[1..|word| - 1];
    || (word[0] == '"' && word[|word| - 1] == '"' && '"' !in inner)
    || (word[0] == '\'' && word[|word| - 1] == '\'' && '\'' !in inner)
    || (word[0] == '<' && word[|word| - 1] == '>' && '<' !in inner)
  }

  /** The element a placeholder names, by its lowercased inner text, when its value is truthy. */
  predicate Names(elements: map<string, string>, word: string) {
    Placeholder(word) && Lower(word[1..|word| - 1]) in elements && elements[Lower(word[1..|word| - 1])] != ""
  }

  /** One word of a step's first line after substitution. */
  function Substitute(elements: map<string, string>, word: string): (r: string)
    ensures !Names(elements, word) ==> r == word
    ensures Names(elements, word) ==>
      && |r| >= 2 && r[0] == word[0] && r[|r| - 1] == word[|word| - 1]
      && r[1..|r| - 1] == elements[Lower(word[1..|word| - 1])]
  {
    if !Placeholder(word) then word
    else
      var name := Lower(word[1..|word| - 1]);
      if name !in elements || elements[name] == "" then word
      else
        var r := [word[0]] + elements[name] + [word[|word| - 1]];
        assert r[1..|r| - 1] == elements[name];
        r
  }

  /** The words of a step's first line after substitution, word by word. */
  function SubstituteAll(elements: map<string, string>, head: seq<string>): (words: seq<string>)
    ensures |words| == |head|
    ensures forall i | 0 <= i < |head| :: words[i] == Substitute(elements, head[i])
  {
    seq(|head|, i requires 0 <= i < |head| => Substitute(elements, head[i]))
  }

  /** Whether word `i` falls in the found keyword: `keyword && i < keyword.length`. */
  predicate InKeyword(kw: Option<seq<string>>, i: nat) {
    kw.Some? && i < |kw.value|
  }

  /** The words from index `i` on whose membership in the keyword is `want`,
      in order: the two index `filter` calls. */
  function Pick(words: seq<string>, kw: Option<seq<string>>, want: bool, i: nat): seq<string>
    decreases |words| - i
  {
    if i >= |words| then []
    else (if InKeyword(kw, i) == want then [words[i]] else []) + Pick(words, kw, want, i + 1)
  }

  /** How many leading words the keyword covers. */
  function KeywordLength(words: seq<string>, kw: Option<seq<string>>): (n: nat)
    ensures n <= |words|
    ensures kw.None? ==> n == 0
    ensures kw.Some? ==> n == |kw.value| || n == |words|
  {
    if kw.None? then 0 else if |kw.value| < |words| then |kw.value| else |words|
  }

  /** From index `i` on, the two index filters take the keyword part and
      the label part of the remaining words. */
  lemma PickFrom(words: seq<string>, kw: Option<seq<string>>, i: nat)
    requires i <= |words|
    ensures var n := KeywordLength(words, kw);
      && Pick(words, kw, true, i) == (if i <= n then words[i..n] else [])
      && Pick(words, kw, false, i) == (if i <= n then words[n..] else words[i..])
  {
    var n := KeywordLength(words, kw);
    if i <= n {
      KeywordPart(words, kw, n, i);
      LabelPart(words, kw, n, i);
    } else {
      KeywordDone(words, kw, n, i);
      LabelRest(words, kw, n, i);
    }
  }

  /** Past the keyword no word is picked for it. */
  lemma {:induction false} KeywordDone(words: seq<string>, kw: Option<seq<string>>, n: nat, i: nat)
    requires n == KeywordLength(words, kw) && n <= i <= |words|
    ensures Pick(words, kw, true, i) == []
    decreases |words| - i
  {
    if i < |words| {
      assert !InKeyword(kw, i);
      KeywordDone(words, kw, n, i + 1);
    }
  }

  /** Up to the keyword's end every word is picked for it. */
  lemma {:induction false} KeywordPart(words: seq<string>, kw: Option<seq<string>>, n: nat, i: nat)
    requires n == KeywordLength(words, kw) && i <= n
    ensures Pick(words, kw, true, i) == words[i..n]
    decreases n - i
  {
    if i < n {
      assert InKeyword(kw, i);
      KeywordPart(words, kw, n, i + 1);
      assert words[i..n] == [words[i]] + words[i + 1..n];
    } else {
      KeywordDone(words, kw, n, i);
    }
  }

  /** Past the keyword every word is picked for the label. */
  lemma {:induction false} LabelRest(words: seq<string>, kw: Option<seq<string>>, n: nat, i: nat)
    requires n == KeywordLength(words, kw) && n <= i <= |words|
    ensures Pick(words, kw, false, i) == words[i..]
    decreases |words| - i
  {
    if i < |words| {
      assert !InKeyword(kw, i);
      LabelRest(words, kw, n, i + 1);
      assert words[i..] == [words[i]] + words[i + 1..];
    }
  }

  /** Up to the keyword's end no word is picked for the label. */
  lemma {:induction false} LabelPart(words: seq<string>, kw: Option<seq<string>>, n: nat, i: nat)
    requires n == KeywordLength(words, kw) && i <= n
    ensures Pick(words, kw, false, i) == words[n..]
    decreases n - i
  {
    if i < n {
      assert InKeyword(kw, i);
      LabelPart(words, kw, n, i + 1);
    } else {
      LabelRest(words, kw, n, i);
    }
  }

  /** The keyword takes the first `n` words and the label the rest, so the
      two concatenate back to the word list. */
  lemma KeywordAndLabel(words: seq<string>, kw: Option<seq<string>>)
    ensures Pick(words, kw, true, 0) == words[..KeywordLength(words, kw)]
    ensures Pick(words, kw, false, 0) == words[KeywordLength(words, kw)..]
    ensures Pick(words, kw, true, 0) + Pick(words, kw, false, 0) == words
  {
    var n := KeywordLength(words, kw);
    PickFrom(words, kw, 0);
    assert words[0..n] == words[..n];
    assert words[..n] + words[n..] == words;
  }

  /** The text inserted for a step: the label, then the body lines. */
  function InsertText(caption: string, body: seq<string>): (text: string)
    ensures text == Join([caption] + body, "\n")
  {
    if |body| > 0 then JoinCons(caption, body, "\n"); caption + ("\n" + Join(body, "\n"))
    else caption + ""
  }

  /** A step relabelled against the element and keyword tables. */
  function Relabel(base: Base, elements: map<string, string>, keywords: seq<seq<string>>, s: Step): (r: Step)
  {
    var words := SubstituteAll(elements, s.head);
    var kw := base.findKeyword(keywords, words);
    var caption := Join(Pick(words, kw, false, 0), " ");
    s.(caption := Some(caption), keyword := Some(Join(Pick(words, kw, true, 0), " ")), insertText := InsertText(caption, s.body))
  }

  /** Every catalogued step relabelled. */
  function RelabelAll(base: Base, elements: map<string, string>, keywords: seq<seq<string>>, steps: map<string, Step>): (r: map<string, Step>)
    ensures r.Keys == steps.Keys
  {
    map k | k in steps :: Relabel(base, elements, keywords, steps[k])
  }

  /** Relabelling writes the label, the keyword prefix and the inserted
      text, and nothing else of the step. */
  lemma RelabelWritesOnlyLabels(base: Base, elements: map<string, string>, keywords: seq<seq<string>>, s: Step)
    ensures var r := Relabel(base, elements, keywords, s);
      && r == s.(caption := r.caption, keyword := r.keyword, insertText := r.insertText)
      && r.caption.Some? && r.keyword.Some?
  {
  }

  /** What relabelling writes depends only on what it reads: the head, the
      body and the two tables. */
  lemma RelabelReadsHeadAndBody(base: Base, elements: map<string, string>, keywords: seq<seq<string>>, s: Step, t: Step)
    requires s.head == t.head && s.body == t.body
    ensures Relabel(base, elements, keywords, s).caption == Relabel(base, elements, keywords, t).caption
    ensures Relabel(base, elements, keywords, s).keyword == Relabel(base, elements, keywords, t).keyword
    ensures Relabel(base, elements, keywords, s).insertText == Relabel(base, elements, keywords, t).insertText
  {
  }

  /** Relabelling the whole catalogue twice is relabelling it once. */
  lemma RelabelAllIdempotent(base: Base, elements: map<string, string>, keywords: seq<seq<string>>, steps: map<string, Step>)
    ensures RelabelAll(base, elements, keywords, RelabelAll(base, elements, keywords, steps)) == RelabelAll(base, elements, keywords, steps)
  {
    var once := RelabelAll(base, elements, keywords, steps);
    forall k | k in steps
      ensures Relabel(base, elements, keywords, once[k]) == once[k]
    {
      RelabelReadsHeadAndBody(base, elements, keywords, once[k], steps[k]);
    }
  }

  // ---------------------------------------------------------------------
  // The provider's tables

  class Provider {
    const base: Base
    /** The keyword phrases, each a list of lowercase words. */
    var keywords: seq<seq<string>>
    /** Element values by lowercased name. */
    var elements: map<string, string>
    /** Variables by lowercased name. */
    var variables: map<string, Variable>
    /** The step catalogue by canonical key. */
    var steps: map<string, Step>
    /** The syntax message the host last set. */
    var syntaxMsg: string

    /** The table keys are lowercased, and the keyword phrases consist of
        lowercase space-free words and are ordered by descending word count. */
    ghost predicate Valid()
      reads this
    {
      && ByCount(keywords) && PlainWords(keywords)
      && (forall k | k in elements :: IsLower(k))
      && (forall k | k in variables :: IsLower(k))
    }

    constructor (base: Base)
      ensures Valid() && this.base == base
      ensures keywords == [] && elements == map[] && variables == map[] && steps == map[] && syntaxMsg == ""
    {
      this.base := base;
      keywords := [];
      elements := map[];
      variables := map[];
      steps := map[];
      syntaxMsg := "";
    }

    /** Empties an array in place (`splice(0, length)`). */
    static method ClearArray<T>(target: seq<T>) returns (cleared: seq<T>)
      ensures cleared == []
    {
      cleared := target[|target|..];
    }

    /** Deletes every key of an object, one at a time. */
    static method ClearObject<V>(target: map<string, V>) returns (cleared: map<string, V>)
      ensures cleared == map[]
    {
      cleared := target;
      while cleared.Keys != {}
        decreases |cleared.Keys|
      {
        var k :| k in cleared.Keys;
        cleared := cleared - {k};
      }
    }

    /** Replaces the keyword table by the payload's phrases, lowercased,
        split on spaces and sorted by descending word count. The table is
        emptied before the payload is parsed, so a payload that does not
        parse leaves it empty. */
    method SetKeywords(arg: Option<seq<string>>) returns (parsed: bool)
      requires Valid()
      modifies this
      ensures Valid()
      ensures parsed <==> arg.Some?
      ensures keywords == if arg.Some? then SortByCount(Phrases(arg.value)) else []
      ensures elements == old(elements) && variables == old(variables) && steps == old(steps) && syntaxMsg == old(syntaxMsg)
    {
      keywords := ClearArray(keywords);
      if arg.None? {
        return false;
      }
      var list := arg.value;
      var pushed := keywords;
      var i := 0;
      while i < |list|
        invariant 0 <= i <= |list|
        invariant pushed == Phrases(list)[..i]
      {
        pushed := pushed + [Split(Lower(list[i]), ' ')];
        i := i + 1;
      }
      assert pushed == Phrases(list);
      keywords := SortByCount(pushed);
      SortByCountOrdered(pushed);
      PhrasesPlain(list);
      PermutationPlain(keywords, pushed);
      return true;
    }

    /** Merges the payload into the element table (after emptying it when
        `clear` is set), keys lowercased, later keys overwriting earlier
        ones, then relabels the catalogue. */
    method SetElements(values: Option<seq<(string, string)>>, clear: bool) returns (parsed: bool)
      requires Valid()
      modifies this
      ensures Valid()
      ensures parsed <==> values.Some?
      ensures var kept := if clear then map[] else old(elements);
        elements == if values.Some? then Upsert(kept, ElementEntries(values.value)) else kept
      ensures steps == if parsed then RelabelAll(base, elements, keywords, old(steps)) else old(steps)
      ensures keywords == old(keywords) && variables == old(variables) && syntaxMsg == old(syntaxMsg)
    {
      if clear {
        elements := ClearObject(elements);
      }
      if values.None? {
        return false;
      }
      var obj := values.value;
      ghost var kept := elements;
      var merged := elements;
      var i := 0;
      while i < |obj|
        invariant 0 <= i <= |obj|
        invariant merged == Upsert(kept, ElementEntries(obj)[..i])
      {
        assert ElementEntries(obj)[..i + 1][..i] == ElementEntries(obj)[..i];
        merged := merged[Lower(obj[i].0) := obj[i].1];
        i := i + 1;
      }
      assert ElementEntries(obj)[..i] == ElementEntries(obj);
      ElementKeysLower(obj);
      UpsertLowerKeys(kept, ElementEntries(obj));
      elements := merged;
      UpdateStepLabels();
      return true;
    }

    /** Merges the payload into the variable table (after emptying it when
        `clear` is set), keys lowercased, each stored with its key as given
        and its value, then relabels the catalogue. */
    method SetVariables(values: Option<seq<(string, string)>>, clear: bool) returns (parsed: bool)
      requires Valid()
      modifies this
      ensures Valid()
      ensures parsed <==> values.Some?
      ensures var kept := if clear then map[] else old(variables);
        variables == if values.Some? then Upsert(kept, VariableEntries(values.value)) else kept
      ensures steps == if parsed then RelabelAll(base, elements, keywords, old(steps)) else old(steps)
      ensures keywords == old(keywords) && elements == old(elements) && syntaxMsg == old(syntaxMsg)
    {
      if clear {
        variables := ClearObject(variables);
      }
      if values.None? {
        return false;
      }
      var obj := values.value;
      ghost var kept := variables;
      var merged := variables;
      var i := 0;
      while i < |obj|
        invariant 0 <= i <= |obj|
        invariant merged == Upsert(kept, VariableEntries(obj)[..i])
      {
        assert VariableEntries(obj)[..i + 1][..i] == VariableEntries(obj)[..i];
        merged := merged[Lower(obj[i].0) := Variable(obj[i].0, obj[i].1)];
        i := i + 1;
      }
      assert VariableEntries(obj)[..i] == VariableEntries(obj);
      VariableKeysLower(obj);
      UpsertLowerKeys(kept, VariableEntries(obj));
      variables := merged;
      UpdateStepLabels();
      return true;
    }

    /** Stores every payload step under its canonical key (after emptying
        the catalogue when `clear` is set), later steps overwriting earlier
        ones with an equal key, then relabels the catalogue. */
    method SetStepList(list: Option<seq<StepPayload>>, clear: bool) returns (parsed: bool)
      requires Valid()
      modifies this
      ensures Valid()
      ensures parsed <==> list.Some?
      ensures var kept := if clear then map[] else old(steps);
        steps == if list.Some? then RelabelAll(base, elements, keywords, Upsert(kept, StepEntries(base, list.value))) else kept
      ensures keywords == old(keywords) && elements == old(elements) && variables == old(variables) && syntaxMsg == old(syntaxMsg)
    {
      if clear {
        steps := ClearObject(steps);
      }
      if list.None? {
        return false;
      }
      var payload := list.value;
      ghost var kept := steps;
      var stored := steps;
      var i := 0;
      while i < |payload|
        invariant 0 <= i <= |payload|
        invariant stored == Upsert(kept, StepEntries(base, payload)[..i])
      {
        assert StepEntries(base, payload)[..i + 1][..i] == StepEntries(base, payload)[..i];
        var lines := Split(payload[i].insertText, '\n');
        var head := base.splitWords(lines[0]);
        var key := base.key(base.filterWords(head));
        stored := stored[key := Step(head, lines[1..], payload[i].documentation, payload[i].insertText,
                                     payload[i].sortText, payload[i].section, payload[i].kind, None, None)];
        i := i + 1;
      }
      assert StepEntries(base, payload)[..i] == StepEntries(base, payload);
      steps := stored;
      UpdateStepLabels();
      return true;
    }

    /** Relabels every catalogued step in place. */
    method UpdateStepLabels()
      modifies this
      ensures steps == RelabelAll(base, elements, keywords, old(steps))
      ensures keywords == old(keywords) && elements == old(elements) && variables == old(variables) && syntaxMsg == old(syntaxMsg)
    {
      var helpers, names, phrases := base, elements, keywords;
      steps := UpdateEach(steps, (s: Step) => Relabel(helpers, names, phrases, s));
    }

    /** The loop over the catalogue's keys, updating one step at a time. */
    static method UpdateEach(table: map<string, Step>, update: Step -> Step) returns (updated: map<string, Step>)
      ensures updated == map k | k in table :: update(table[k])
    {
      var pending := table.Keys;
      updated := table;
      while pending != {}
        invariant pending <= table.Keys && updated.Keys == table.Keys
        invariant forall k | k in pending :: updated[k] == table[k]
        invariant forall k | k in table && k !in pending :: updated[k] == update(table[k])
        decreases |pending|
      {
        var k :| k in pending;
        updated := updated[k := update(updated[k])];
        pending := pending - {k};
      }
    }

    method SetSyntaxMsg(message: string)
      modifies this
      ensures syntaxMsg == message
      ensures keywords == old(keywords) && elements == old(elements) && variables == old(variables) && steps == old(steps)
    {
      syntaxMsg := message;
    }

    method GetSyntaxMsg() returns (message: string)
      ensures message == syntaxMsg
    {
      message := syntaxMsg;
    }
  }

  // ---------------------------------------------------------------------
  // What the catalogue operations promise together

  /** Without `clear`, a step list leaves the steps under keys it does not
      use as they were, relabelled; a catalogue already relabelled against
      the current tables is therefore untouched there. */
  lemma StepListKeepsOthers(base: Base, elements: map<string, string>, keywords: seq<seq<string>>,
                            steps: map<string, Step>, list: seq<StepPayload>, k: string)
    requires k in steps
    requires forall i | 0 <= i < |list| :: StepKey(base, list[i]) != k
    ensures var after := RelabelAll(base, elements, keywords, Upsert(steps, StepEntries(base, list)));
      && k in after && after[k] == Relabel(base, elements, keywords, steps[k])
      && (steps[k] == Relabel(base, elements, keywords, steps[k]) ==> after[k] == steps[k])
  {
    UpsertLookup(steps, StepEntries(base, list), k);
  }

  /** A step list stores, under each key it uses, the last step with that
      key, relabelled. */
  lemma StepListLastWins(base: Base, elements: map<string, string>, keywords: seq<seq<string>>,
                         steps: map<string, Step>, list: seq<StepPayload>, i: nat)
    requires i < |list|
    requires forall j | i < j < |list| :: StepKey(base, list[j]) != StepKey(base, list[i])
    ensures var after := RelabelAll(base, elements, keywords, Upsert(steps, StepEntries(base, list)));
      && StepKey(base, list[i]) in after
      && after[StepKey(base, list[i])] == Relabel(base, elements, keywords, Stored(base, list[i]))
  {
    var es := StepEntries(base, list);
    UpsertLookup(steps, es, StepKey(base, list[i]));
    var j := LastWith(es, StepKey(base, list[i])).value;
    assert es[i].0 == StepKey(base, list[i]);
    assert j == i;
  }

  /** After an element payload, the last entry whose key lowercases to a
      name gives that name's value; names no entry gives keep their value. */
  lemma ElementsLastWins(kept: map<string, string>, values: seq<(string, string)>, i: nat)
    requires i < |values|
    requires forall j | i < j < |values| :: Lower(values[j].0) != Lower(values[i].0)
    ensures var after := Upsert(kept, ElementEntries(values));
      Lower(values[i].0) in after && after[Lower(values[i].0)] == values[i].1
  {
    var es := ElementEntries(values);
    UpsertLookup(kept, es, Lower(values[i].0));
    var j := LastWith(es, Lower(values[i].0)).value;
    assert es[i].0 == Lower(values[i].0);
    assert j == i;
  }

  /** A variable is stored under its lowercased key with its key as given. */
  lemma VariablesKeepName(kept: map<string, Variable>, values: seq<(string, string)>, i: nat)
    requires i < |values|
    requires forall j | i < j < |values| :: Lower(values[j].0) != Lower(values[i].0)
    ensures var after := Upsert(kept, VariableEntries(values));
      Lower(values[i].0) in after && after[Lower(values[i].0)] == Variable(values[i].0, values[i].1)
  {
    var es := VariableEntries(values);
    UpsertLookup(kept, es, Lower(values[i].0));
    var j := LastWith(es, Lower(values[i].0)).value;
    assert es[i].0 == Lower(values[i].0);
    assert j == i;
  }

  /** A placeholder's name is matched case-insensitively against element
      keys stored in lower case: `"Name"` picks up the value stored for `name`. */
  lemma PlaceholderFindsElement(kept: map<string, string>, values: seq<(string, string)>, i: nat, word: string)
    requires i < |values| && values[i].1 != ""
    requires forall j | i < j < |values| :: Lower(values[j].0) != Lower(values[i].0)
    requires Placeholder(word) && Lower(word[1..|word| - 1]) == Lower(values[i].0)
    ensures var r := Substitute(Upsert(kept, ElementEntries(values)), word);
      r == [word[0]] + values[i].1 + [word[|word| - 1]]
  {
    ElementsLastWins(kept, values, i);
    var r := Substitute(Upsert(kept, ElementEntries(values)), word);
    assert r == [r[0]] + r[1..|r| - 1] + [r[|r| - 1]];
  }
}
