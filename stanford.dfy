/**
 * The reader of Stanford parser output, hrex/corpus/stanford.py.
 *
 * The parser writes each sentence as three blocks separated by blank lines:
 * the `word/TAG` phrase, the parse tree and the dependencies, followed by one
 * more blank line. `__iter__` walks the (stripped) lines with three flags
 * `pos`, `parsed` and `dep`, filling the buffers `phrase`, `tree` and `deps`,
 * and yields when the blank line after the dependencies arrives. The pure
 * reading of one line is `Step`, of many lines `Run`; `Stanford.Iterate` is
 * the loop, proved to end in the state `Run` computes and to yield what it
 * yields. The token helpers split a `word/TAG` token and filter on its tag.
 */
module Stanford {
  import opened PyBuiltins

  /** `Term = namedtuple('Term', ['word', 'pos'])`. */
  datatype Term = Term(word: string, pos: string)

  // ---------------------------------------------------------------------------
  // Tags.

  const NounTags: seq<string> := ["NN", "NNS", "NNP", "NNPS"]
  const PronounTags: seq<string> := ["PRP", "PRP$"]
  const AdjectiveTags: seq<string> := ["JJ"]
  const VerbTags: seq<string> := ["VB", "VBD", "VBG", "VBN", "VBP", "VBZ"]

  /** `_normalization(pos)`: a tag's one-letter class, or the tag itself. */
  function Normalization(pos: string): string
  {
    if pos in NounTags then "n"
    else if pos in PronounTags then "p"
    else if pos in AdjectiveTags then "j"
    else if pos in VerbTags then "v"
    else pos
  }

  /** `_contentPos(pos, content)`: noun, adjective and verb tags, given as a
      Penn tag or as the normalised letter, whose letter is in `content`. */
  predicate ContentPos(pos: string, content: string)
  {
    ('n' in content && (pos in NounTags || pos == "n")) ||
    ('j' in content && (pos in AdjectiveTags || pos == "j")) ||
    ('v' in content && (pos in VerbTags || pos == "v"))
  }

  /** The letters `_normalization` produces are not tags it maps again, so a
      second normalisation changes nothing. */
  lemma NormalizationIdempotent(pos: string)
    ensures Normalization(Normalization(pos)) == Normalization(pos)
  {
  }

  /** A tag is a content tag exactly when it normalises to one of the letters
      `n`, `j`, `v` and that letter is in `content`; pronouns (`p`) never are. */
  lemma ContentPosByLetter(pos: string, content: string)
    ensures ContentPos(pos, content) <==>
              var l := Normalization(pos);
              (l == "n" || l == "j" || l == "v") && l[0] in content
    ensures !ContentPos("p", content)
  {
  }

  /** Filtering after normalising keeps the same tokens as filtering the raw
      tags. */
  lemma NormalizationKeepsContent(pos: string, content: string)
    ensures ContentPos(Normalization(pos), content) == ContentPos(pos, content)
  {
    NormalizationIdempotent(pos);
    ContentPosByLetter(pos, content);
    ContentPosByLetter(Normalization(pos), content);
  }

  // ---------------------------------------------------------------------------
  // Tokens.

  /** The word of a token `ar = term.split('/')`: `ar[0]` for two parts,
      otherwise `'/'.join(ar[:-1])`. */
  function TokenWord(term: string): string
  {
    var ar := SplitOn(term, '/');
    if |ar| == 2 then ar[0] else Join(ar[..|ar| - 1], "/")
  }

  /** The tag of a token: `ar[-1]`. */
  function TokenPos(term: string): string
  {
    var ar := SplitOn(term, '/');
    ar[|ar| - 1]
  }

  /** The tag is the text after the last `/` and the word the text before it;
      a token without `/` has the empty word and is its own tag. */
  lemma TokenSplit(term: string)
    ensures '/' in term ==> TokenWord(term) + "/" + TokenPos(term) == term && '/' !in TokenPos(term)
    ensures '/' !in term ==> TokenWord(term) == "" && TokenPos(term) == term
  {
    var ar := SplitOn(term, '/');
    if '/' in term {
      var n := |ar| - 1;
      assert n >= 1;
      assert ar == ar[..n] + [ar[n]];
      JoinSplitOn(term, '/');
      JoinSnoc(ar[..n], ar[n], "/");
      SplitOnParts(term, '/');
      if n == 1 {
        assert Join(ar[..1], "/") == ar[0];
      }
    }
  }

  /** One token as `listOfTerms` reads it. */
  function TermOf(term: string, normalize: bool, lower: bool): Term
  {
    var w := TokenWord(term);
    var p := TokenPos(term);
    Term(if lower then Lower(w) else w, if normalize then Normalization(p) else p)
  }

  /** What `listOfTerms` returns for the tokens `toks`. */
  function TermsOf(toks: seq<string>, contentWords: bool, ctw: string, normalize: bool, lower: bool): seq<Term>
  {
    if toks == [] then []
    else
      var t := TermOf(toks[|toks| - 1], normalize, lower);
      TermsOf(toks[..|toks| - 1], contentWords, ctw, normalize, lower) +
      (if !contentWords || ContentPos(t.pos, ctw) then [t] else [])
  }

  /** No more terms than tokens. */
  lemma {:induction false} TermsOfLength(toks: seq<string>, contentWords: bool, ctw: string, normalize: bool, lower: bool)
    ensures |TermsOf(toks, contentWords, ctw, normalize, lower)| <= |toks|
  {
    if toks != [] {
      TermsOfLength(toks[..|toks| - 1], contentWords, ctw, normalize, lower);
    }
  }

  /** Unfiltered, one term per token, in order. */
  lemma {:induction false} TermsOfUnfiltered(toks: seq<string>, ctw: string, normalize: bool, lower: bool)
    ensures |TermsOf(toks, false, ctw, normalize, lower)| == |toks|
    ensures forall k :: 0 <= k < |toks| ==> TermsOf(toks, false, ctw, normalize, lower)[k] == TermOf(toks[k], normalize, lower)
  {
    if toks != [] {
      var init := toks[..|toks| - 1];
      TermsOfUnfiltered(init, ctw, normalize, lower);
      assert TermsOf(toks, false, ctw, normalize, lower) ==
             TermsOf(init, false, ctw, normalize, lower) + [TermOf(toks[|toks| - 1], normalize, lower)];
    }
  }

  /** Every term is some token's term, and filtered terms have content tags. */
  lemma {:induction false} TermsOfSound(toks: seq<string>, contentWords: bool, ctw: string, normalize: bool, lower: bool, t: Term)
    requires t in TermsOf(toks, contentWords, ctw, normalize, lower)
    ensures exists k :: 0 <= k < |toks| && t == TermOf(toks[k], normalize, lower)
    ensures contentWords ==> ContentPos(t.pos, ctw)
  {
    var init := toks[..|toks| - 1];
    var last := TermOf(toks[|toks| - 1], normalize, lower);
    assert TermsOf(toks, contentWords, ctw, normalize, lower) ==
           TermsOf(init, contentWords, ctw, normalize, lower) + (if !contentWords || ContentPos(last.pos, ctw) then [last] else []);
    if t in TermsOf(init, contentWords, ctw, normalize, lower) {
      TermsOfSound(init, contentWords, ctw, normalize, lower, t);
      var k :| 0 <= k < |init| && t == TermOf(init[k], normalize, lower);
      assert toks[k] == init[k];
    } else {
      assert t == last;
    }
  }

  /** The loop of `listOfTerms` over the tokens of `phrase`. */
  method TermsOfPhrase(phrase: string, contentWords: bool, ctw: string, normalize: bool, lower: bool)
    returns (sent: seq<Term>)
    ensures sent == TermsOf(SplitWs(phrase), contentWords, ctw, normalize, lower)
  {
    sent := [];
    var toks := SplitWs(phrase);
    for k := 0 to |toks|
      invariant sent == TermsOf(toks[..k], contentWords, ctw, normalize, lower)
    {
      var term := toks[k];
      var ar := SplitOn(term, '/');
      var word;
      if |ar| == 2 {
        word := ar[0];
      } else {
        word := Join(ar[..|ar| - 1], "/");
      }
      if lower {
        word := Lower(word);
      }
      var pos := ar[|ar| - 1];
      if normalize {
        pos := Normalization(pos);
      }
      assert Term(word, pos) == TermOf(term, normalize, lower);
      if contentWords {
        if ContentPos(pos, ctw) {
          sent := sent + [Term(word, pos)];
        }
      } else {
        sent := sent + [Term(word, pos)];
      }
      assert toks[..k + 1][..k] == toks[..k];
    }
    assert toks[..|toks|] == toks;
  }

  /** The words of the tokens. */
  function WordsOf(toks: seq<string>): (ws: seq<string>)
    ensures |ws| == |toks| && forall k :: 0 <= k < |toks| ==> ws[k] == TokenWord(toks[k])
  {
    if toks == [] then [] else WordsOf(toks[..|toks| - 1]) + [TokenWord(toks[|toks| - 1])]
  }

  /** Each string followed by one space, concatenated. */
  function Spaced(ws: seq<string>): string
  {
    if ws == [] then "" else Spaced(ws[..|ws| - 1]) + ws[|ws| - 1] + " "
  }

  /** `Spaced(ws)` is `' '.join(ws)` and one more space. */
  lemma {:induction false} SpacedIsJoin(ws: seq<string>)
    requires ws != []
    ensures Spaced(ws) == Join(ws, " ") + " "
  {
    var init := ws[..|ws| - 1];
    var x := ws[|ws| - 1];
    assert ws == init + [x];
    if init != [] {
      SpacedIsJoin(init);
      JoinSnoc(init, x, " ");
      assert Spaced(ws) == Join(init, " ") + " " + x + " ";
    } else {
      assert Spaced(ws) == "" + x + " ";
    }
  }

  /** Dropping the last character of `Spaced(ws)` leaves `' '.join(ws)`. */
  lemma SpacedJoin(ws: seq<string>)
    ensures Take(Spaced(ws), -1) == Join(ws, " ")
  {
    if ws != [] {
      SpacedIsJoin(ws);
      var j := Join(ws, " ");
      assert (j + " ")[..|j|] == j;
    }
  }

  /** The reader's buffers. */
  datatype Buffers = Buffers(phrase: string, tree: string, deps: seq<string>)

  const EmptyBuffers := Buffers("", "", [])

  /** What the tree buffer accumulates over tree lines `ts`. */
  lemma {:induction false} SpacedAppend(ws: seq<string>, x: string)
    ensures Spaced(ws + [x]) == Spaced(ws) + x + " "
  {
    assert (ws + [x])[..|ws|] == ws;
  }

  // ---------------------------------------------------------------------------
  // The line state machine of `__iter__`.

  /** The flags `pos`, `parsed`, `dep`. */
  datatype Flags = Flags(pos: bool, parsed: bool, dep: bool)

  const InPhrase := Flags(true, false, false)
  const InTree := Flags(false, true, false)
  const InDeps := Flags(false, false, true)

  predicate OneHot(f: Flags)
  {
    f == InPhrase || f == InTree || f == InDeps
  }

  datatype ReadState = ReadState(flags: Flags, buf: Buffers)

  /** One stripped line: the new state and the buffers yielded (none or one). */
  function Step(r: ReadState, line: string): (ReadState, seq<Buffers>)
  {
    var f, b := r.flags, r.buf;
    if line == "" then
      if f.pos then (ReadState(f.(pos := false, parsed := true), b), [])
      else if f.parsed then (ReadState(f.(parsed := false, dep := true), b), [])
      else if f.dep then (ReadState(f.(pos := true, dep := false), EmptyBuffers), [b])
      else (r, [])
    else
      if f.pos then (ReadState(f, b.(phrase := line)), [])
      else if f.parsed then (ReadState(f, b.(tree := b.tree + line + " ")), [])
      else if f.dep then (ReadState(f, b.(deps := b.deps + [line])), [])
      else (r, [])
  }

  /** The lines in order: the final state and everything yielded. */
  function Run(r: ReadState, lines: seq<string>): (ReadState, seq<Buffers>)
  {
    if lines == [] then (r, [])
    else
      var prev := Run(r, lines[..|lines| - 1]);
      var last := Step(prev.0, lines[|lines| - 1]);
      (last.0, prev.1 + last.1)
  }

  /** A blank line advances phrase -> tree -> deps -> phrase; only the one
      leaving the deps state yields, the buffers it held, and empties them.
      A non-blank line keeps the state and writes the current buffer: the
      phrase is replaced, the tree gets the line and a space, the deps get
      the line appended. */
  lemma StepCycle(r: ReadState, line: string)
    requires OneHot(r.flags)
    ensures OneHot(Step(r, line).0.flags)
    ensures line == "" && r.flags == InPhrase ==> Step(r, line) == (ReadState(InTree, r.buf), [])
    ensures line == "" && r.flags == InTree ==> Step(r, line) == (ReadState(InDeps, r.buf), [])
    ensures line == "" && r.flags == InDeps ==> Step(r, line).0 == ReadState(InPhrase, EmptyBuffers) && Step(r, line).1 == [r.buf]
    ensures line != "" ==> Step(r, line).0.flags == r.flags && Step(r, line).1 == []
    ensures line != "" && r.flags == InPhrase ==> Step(r, line).0.buf == r.buf.(phrase := line)
    ensures line != "" && r.flags == InTree ==> Step(r, line).0.buf == r.buf.(tree := r.buf.tree + line + " ")
    ensures line != "" && r.flags == InDeps ==> Step(r, line).0.buf == r.buf.(deps := r.buf.deps + [line])
  {
  }

  /** Exactly one flag is set throughout. */
  lemma {:induction false} RunOneHot(r: ReadState, lines: seq<string>)
    requires OneHot(r.flags)
    ensures OneHot(Run(r, lines).0.flags)
  {
    if lines != [] {
      RunOneHot(r, lines[..|lines| - 1]);
      StepCycle(Run(r, lines[..|lines| - 1]).0, lines[|lines| - 1]);
    }
  }

  /** Reading `a` and then `c` is reading `a + c`. */
  lemma {:induction false} RunAppend(r: ReadState, a: seq<string>, c: seq<string>)
    ensures Run(r, a + c).0 == Run(Run(r, a).0, c).0
    ensures Run(r, a + c).1 == Run(r, a).1 + Run(Run(r, a).0, c).1
  {
    if c == [] {
      assert a + c == a;
    } else {
      var c0 := c[..|c| - 1];
      assert (a + c)[..|a + c| - 1] == a + c0;
      RunAppend(r, a, c0);
    }
  }

  predicate NoBlank(lines: seq<string>)
  {
    forall k :: 0 <= k < |lines| ==> lines[k] != ""
  }

  /** Lines without a blank one yield nothing. */
  lemma {:induction false} NoBlankNoYield(r: ReadState, lines: seq<string>)
    requires NoBlank(lines)
    ensures Run(r, lines).1 == []
    ensures Run(r, lines).0.flags == r.flags
  {
    if lines != [] {
      NoBlankNoYield(r, lines[..|lines| - 1]);
    }
  }

  /** A trailing block not closed by a blank line is never yielded. */
  lemma TrailingBlockIgnored(r: ReadState, a: seq<string>, c: seq<string>)
    requires NoBlank(c)
    ensures Run(r, a + c).1 == Run(r, a).1
  {
    RunAppend(r, a, c);
    NoBlankNoYield(Run(r, a).0, c);
  }

  /** Phrase lines: the last one wins. */
  lemma {:induction false} RunPhrase(b: Buffers, p: seq<string>)
    requires NoBlank(p)
    ensures Run(ReadState(InPhrase, b), p).0 == ReadState(InPhrase, if p == [] then b else b.(phrase := p[|p| - 1]))
  {
    if p != [] {
      RunPhrase(b, p[..|p| - 1]);
    }
  }

  /** Tree lines: each is appended followed by a space. */
  lemma {:induction false} RunTree(b: Buffers, t: seq<string>)
    requires NoBlank(t)
    ensures Run(ReadState(InTree, b), t).0 == ReadState(InTree, b.(tree := b.tree + Spaced(t)))
  {
    if t != [] {
      RunTree(b, t[..|t| - 1]);
    }
  }

  /** Dependency lines: each is appended to the list. */
  lemma {:induction false} RunDeps(b: Buffers, d: seq<string>)
    requires NoBlank(d)
    ensures Run(ReadState(InDeps, b), d).0 == ReadState(InDeps, b.(deps := b.deps + d))
  {
    if d != [] {
      var d0 := d[..|d| - 1];
      RunDeps(b, d0);
      assert b.deps + d0 + [d[|d| - 1]] == b.deps + d;
    }
  }

  /** Reading `r` and then one line. */
  lemma RunSnoc(r: ReadState, a: seq<string>, line: string)
    ensures Run(r, a + [line]).0 == Step(Run(r, a).0, line).0
    ensures Run(r, a + [line]).1 == Run(r, a).1 + Step(Run(r, a).0, line).1
  {
    assert (a + [line])[..|a|] == a;
  }

  /** One sentence as the parser writes it, phrase lines, tree lines and
      dependency lines each closed by a blank line, read from the phrase state:
      exactly one yield, of the last phrase line, the spaced tree lines and the
      dependency lines, and the reader is back in the phrase state, empty. */
  lemma BlockYields(p: seq<string>, t: seq<string>, d: seq<string>)
    requires p != [] && NoBlank(p) && NoBlank(t) && NoBlank(d)
    ensures var res := Run(ReadState(InPhrase, EmptyBuffers), p + [""] + t + [""] + d + [""]);
            res.0 == ReadState(InPhrase, EmptyBuffers) &&
            res.1 == [Buffers(p[|p| - 1], Spaced(t), d)]
  {
    var r0 := ReadState(InPhrase, EmptyBuffers);
    var b1 := EmptyBuffers.(phrase := p[|p| - 1]);
    RunPhrase(EmptyBuffers, p);
    NoBlankNoYield(r0, p);
    RunSnoc(r0, p, "");
    var a1 := p + [""];
    assert Run(r0, a1).0 == ReadState(InTree, b1) && Run(r0, a1).1 == [];
    RunTree(b1, t);
    NoBlankNoYield(ReadState(InTree, b1), t);
    RunAppend(r0, a1, t);
    var b2 := b1.(tree := Spaced(t));
    assert b1.tree + Spaced(t) == Spaced(t);
    var a2 := a1 + t;
    assert Run(r0, a2).0 == ReadState(InTree, b2) && Run(r0, a2).1 == [];
    RunSnoc(r0, a2, "");
    var a3 := a2 + [""];
    assert Run(r0, a3).0 == ReadState(InDeps, b2) && Run(r0, a3).1 == [];
    RunDeps(b2, d);
    NoBlankNoYield(ReadState(InDeps, b2), d);
    RunAppend(r0, a3, d);
    var b3 := b2.(deps := d);
    assert b2.deps + d == d;
    var a4 := a3 + d;
    assert Run(r0, a4).0 == ReadState(InDeps, b3) && Run(r0, a4).1 == [];
    RunSnoc(r0, a4, "");
    assert b3 == Buffers(p[|p| - 1], Spaced(t), d);
  }

  // ---------------------------------------------------------------------------
  // What the generator yields and how `document` consumes it.

  /** What one yield gives, by `self.extract`. */
  datatype Item = PhraseItem(phrase: string) | TreeItem(tree: string) | DepsItem(deps: seq<string>) | AllItem(all: Buffers)

  function ItemOf(extract: string, b: Buffers): Item
  {
    if extract == "WordsAndTags" then PhraseItem(b.phrase)
    else if extract == "Tree" then TreeItem(b.tree)
    else if extract == "Deps" then DepsItem(b.deps)
    else AllItem(b)
  }

  /** `document`: the terms of every yielded phrase, in order. */
  function DocumentOf(seen: seq<Buffers>, contentWords: bool, ctw: string, normalize: bool, lower: bool): seq<Term>
  {
    if seen == [] then []
    else
      DocumentOf(seen[..|seen| - 1], contentWords, ctw, normalize, lower) +
      TermsOf(SplitWs(seen[|seen| - 1].phrase), contentWords, ctw, normalize, lower)
  }

  /** The document of one sentence is the terms of its last phrase line. */
  lemma BlockDocument(p: seq<string>, t: seq<string>, d: seq<string>, contentWords: bool, ctw: string, normalize: bool, lower: bool)
    requires p != [] && NoBlank(p) && NoBlank(t) && NoBlank(d)
    ensures DocumentOf(Run(ReadState(InPhrase, EmptyBuffers), p + [""] + t + [""] + d + [""]).1, contentWords, ctw, normalize, lower) ==
            TermsOf(SplitWs(p[|p| - 1]), contentWords, ctw, normalize, lower)
  {
    BlockYields(p, t, d);
    var seen := [Buffers(p[|p| - 1], Spaced(t), d)];
    assert seen[..0] == [];
  }

  /** `Stanford(input, extract)`: the reader with its buffers. The file is the
      sequence of lines handed to `Iterate`. */
  class Stanford {
    const extract: string
    var phrase: string
    var tree: string
    var deps: seq<string>

    constructor (extract: string)
      ensures this.extract == extract && phrase == "" && tree == "" && deps == []
    {
      this.extract := extract;
      phrase := "";
      tree := "";
      deps := [];
    }

    function Held(): Buffers
      reads this
    {
      Buffers(phrase, tree, deps)
    }

    /** `__iter__` over the stripped `lines`: `items` is what it yields and
        `seen` the buffers the reader holds at each yield. */
    method Iterate(lines: seq<string>) returns (items: seq<Item>, seen: seq<Buffers>)
      modifies this
      ensures seen == Run(ReadState(InPhrase, old(Held())), lines).1
      ensures Held() == Run(ReadState(InPhrase, old(Held())), lines).0.buf
      ensures |items| == |seen| && forall k :: 0 <= k < |seen| ==> items[k] == ItemOf(extract, seen[k])
    {
      ghost var start := ReadState(InPhrase, Held());
      var pos, parsed, dep := true, false, false;
      items, seen := [], [];
      for n := 0 to |lines|
        invariant Run(start, lines[..n]).0 == ReadState(Flags(pos, parsed, dep), Held())
        invariant Run(start, lines[..n]).1 == seen
        invariant |items| == |seen| && forall k :: 0 <= k < |seen| ==> items[k] == ItemOf(extract, seen[k])
      {
        var line := lines[n];
        ghost var before := ReadState(Flags(pos, parsed, dep), Held());
        if line == "" {
          if pos {
            parsed := true;
            pos := false;
          } else if parsed {
            dep := true;
            parsed := false;
          } else if dep {
            pos := true;
            dep := false;
            if extract == "WordsAndTags" {
              items := items + [PhraseItem(phrase)];
            } else if extract == "Tree" {
              items := items + [TreeItem(tree)];
            } else if extract == "Deps" {
              items := items + [DepsItem(deps)];
            } else {
              items := items + [AllItem(Held())];
            }
            seen := seen + [Held()];
            phrase := "";
            tree := "";
            deps := [];
          }
        } else {
          if pos {
            phrase := line;
          } else if parsed {
            tree := tree + line + " ";
          } else if dep {
            deps := deps + [line];
          }
        }
        assert ReadState(Flags(pos, parsed, dep), Held()) == Step(before, line).0;
        assert lines[..n + 1][..n] == lines[..n];
      }
      assert lines[..|lines|] == lines;
    }

    /** `listOfTerms(content_words, ctw, normalize, lower)` on `self.phrase`. */
    method ListOfTerms(contentWords: bool, ctw: string, normalize: bool, lower: bool) returns (sent: seq<Term>)
      ensures sent == TermsOf(SplitWs(phrase), contentWords, ctw, normalize, lower)
    {
      sent := TermsOfPhrase(phrase, contentWords, ctw, normalize, lower);
    }

    /** `plainPhrase()`: the words of the phrase joined by single spaces. */
    method PlainPhrase() returns (s: string)
      ensures s == Join(WordsOf(SplitWs(phrase)), " ")
    {
      var sent := "";
      var toks := SplitWs(phrase);
      for k := 0 to |toks|
        invariant sent == Spaced(WordsOf(toks[..k]))
      {
        var ar := SplitOn(toks[k], '/');
        if |ar| == 2 {
          sent := sent + ar[0] + " ";
        } else {
          sent := sent + Join(ar[..|ar| - 1], "/") + " ";
        }
        assert toks[..k + 1][..k] == toks[..k];
      }
      assert toks[..|toks|] == toks;
      SpacedJoin(WordsOf(toks));
      s := Take(sent, -1);
    }

    /** `contentWords(ctw)`: the normalised content terms, or `ValueError` for
        an empty `ctw`. */
    method ContentWords(ctw: string) returns (r: Result<seq<Term>>)
      ensures r.Err? <==> ctw == ""
      ensures r.Err? ==> r.error == ValueError
      ensures r.Ok? ==> r.value == TermsOf(SplitWs(phrase), true, ctw, true, false)
    {
      if ctw == "" {
        return Err(ValueError);
      }
      var terms := ListOfTerms(true, ctw, true, false);
      r := Ok(terms);
    }

    /** `document(...)`: the terms of each phrase as it is yielded, in order. */
    method Document(lines: seq<string>, contentWords: bool, ctw: string, normalize: bool, lower: bool)
      returns (doc: seq<Term>)
      modifies this
      ensures doc == DocumentOf(Run(ReadState(InPhrase, old(Held())), lines).1, contentWords, ctw, normalize, lower)
      ensures Held() == Run(ReadState(InPhrase, old(Held())), lines).0.buf
    {
      var items, seen := Iterate(lines);
      ghost var after := Held();
      doc := [];
      for k := 0 to |seen|
        invariant Held() == after
        invariant doc == DocumentOf(seen[..k], contentWords, ctw, normalize, lower)
      {
        var terms := TermsOfPhrase(seen[k].phrase, contentWords, ctw, normalize, lower);
        doc := doc + terms;
        assert seen[..k + 1][..k] == seen[..k];
      }
      assert seen[..|seen|] == seen;
    }
  }
}
