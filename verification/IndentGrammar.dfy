/** Which texts the indentation parser accepts, and as what: a grammar that says where each line
    of a tree stands, and that the parser accepts exactly this. */
module IndentGrammar {
  import opened Common
  import opened Indent

  // ------------------------------------------------------------------------------------
  // The grammar

  predicate AllBlank(ts: seq<Tok>) {
    forall i :: 0 <= i < |ts| ==> ts[i].token.Blank?
  }

  /** Documentation at an indentation, with blank lines anywhere in it. */
  predicate DocLines(ts: seq<Tok>, indent: nat) {
    forall i :: 0 <= i < |ts| ==> ts[i].token.Blank? || (ts[i].token.Comment? && ts[i].token.indent == indent)
  }

  /** The comments after the last blank line. */
  function LastDocs(ts: seq<Tok>): seq<string> {
    if ts == [] || !ts[|ts| - 1].token.Comment? then []
    else LastDocs(ts[..|ts| - 1]) + [ts[|ts| - 1].token.text]
  }

  /** A comment or a line. */
  predicate Visible(t: Token) {
    t.Comment? || t.Line?
  }

  /** Documentation that begins with a comment, the line itself, and the lines below it.  The
      flag says whether the file ends there. */
  predicate IsTree(ts: seq<Tok>, p: Parse, indent: nat, end: bool)
    decreases p, 2
  {
    exists d :: 0 <= d < |ts| &&
      Visible(ts[0].token) && DocLines(ts[..d], indent) && p.doc == LastDocs(ts[..d]) &&
      ts[d] == Tok(Line(indent, p.line), p.lineNo) &&
      IsBody(ts[d + 1..], p.body, indent, end)
  }

  /** Blank lines, and then perhaps lines that are indented further, all alike. */
  predicate IsBody(ts: seq<Tok>, ps: seq<Parse>, indent: int, end: bool)
    decreases ps, 1
  {
    exists b :: 0 <= b <= |ts| && AllBlank(ts[..b]) &&
      if b == |ts| then ps == []
      else ts[b].token.Indent() > indent && IsForest(ts[b..], ps, ts[b].token.Indent(), end)
  }

  /** Trees at one indentation; at the end of the file, perhaps documentation of nothing. */
  predicate IsForest(ts: seq<Tok>, ps: seq<Parse>, indent: nat, end: bool)
    decreases ps, 0
  {
    && ts != [] && Visible(ts[0].token) && ts[0].token.Indent() == indent
    && if ps == [] then end && DocLines(ts, indent)
       else exists n :: 0 < n <= |ts| &&
              IsTree(ts[..n], ps[0], indent, end && n == |ts|) &&
              if n == |ts| then ps[1..] == [] else IsForest(ts[n..], ps[1..], indent, end)
  }

  // ------------------------------------------------------------------------------------
  // Documentation

  predicate AllComments(ts: seq<Tok>) {
    forall i :: 0 <= i < |ts| ==> ts[i].token.Comment?
  }

  lemma AllButLast(ts: seq<Tok>)
    requires ts != []
    ensures AllComments(ts) <==> AllComments(ts[..|ts| - 1]) && ts[|ts| - 1].token.Comment?
  {
    assert forall i :: 0 <= i < |ts| - 1 ==> ts[..|ts| - 1][i] == ts[i];
  }

  lemma AllButFirst(ts: seq<Tok>)
    requires ts != []
    ensures AllComments(ts) <==> ts[0].token.Comment? && AllComments(ts[1..])
  {
    assert forall i :: 1 <= i < |ts| ==> ts[1..][i - 1] == ts[i];
  }

  lemma {:induction false} LastDocsFirst(t: Tok, ts: seq<Tok>)
    ensures LastDocs([t] + ts) ==
            if t.token.Comment? && AllComments(ts) then [t.token.text] + LastDocs(ts) else LastDocs(ts)
  {
    hide AllComments;
    var all := [t] + ts;
    if ts == [] {
      assert all == [t] && all[..0] == [];
      assert AllComments([]) by { NoComments(); }
    } else {
      var n := |ts| - 1;
      assert all[..|all| - 1] == [t] + ts[..n] && all[|all| - 1] == ts[n];
      AllButLast(ts);
      if ts[n].token.Comment? {
        LastDocsFirst(t, ts[..n]);
        if t.token.Comment? {
          assert [t.token.text] + LastDocs(ts) == [t.token.text] + LastDocs(ts[..n]) + [ts[n].token.text];
        }
      }
    }
  }

  lemma NoDocs()
    ensures LastDocs([]) == []
  {
  }

  lemma NoComments()
    ensures AllComments([])
  {
  }

  /** What is gathered before the first token that is neither a comment nor blank. */
  lemma {:induction false} CommentsAre(ts: seq<Tok>, rest: seq<Tok>, indent: nat, docs: seq<string>)
    requires DocLines(ts, indent) && (Head(rest).Line? || Head(rest).Eof?)
    ensures Comments(ts + rest, indent, docs) ==
            Ok((if AllComments(ts) then docs else []) + LastDocs(ts), rest)
  {
    hide AllComments, LastDocs;
    if ts == [] {
      assert ts + rest == rest;
      NoComments();
      NoDocs();
      assert docs + [] == docs;
    } else {
      assert ts == [ts[0]] + ts[1..];
      assert (ts + rest)[1..] == ts[1..] + rest;
      LastDocsFirst(ts[0], ts[1..]);
      AllButFirst(ts);
      assert [] + LastDocs(ts[1..]) == LastDocs(ts[1..]);
      if ts[0].token.Blank? {
        CommentsAre(ts[1..], rest, indent, []);
      } else {
        var text := ts[0].token.text;
        CommentsAre(ts[1..], rest, indent, docs + [text]);
        assert docs + ([text] + LastDocs(ts[1..])) == docs + [text] + LastDocs(ts[1..]);
      }
    }
  }

  /** Where the documentation ends. */
  lemma {:induction false} CommentsEnd(ts: seq<Tok>, indent: nat, docs: seq<string>) returns (d: nat)
    requires Comments(ts, indent, docs).Ok?
    ensures d <= |ts| && DocLines(ts[..d], indent) && Comments(ts, indent, docs).rest == ts[d..]
  {
    hide DocLines;
    DocLinesNone(indent);
    assert ts[..0] == [];
    if Head(ts).Blank? || Head(ts).Comment? {
      var e := CommentsEnd(ts[1..], indent, if Head(ts).Blank? then [] else docs + [Head(ts).text]);
      d := e + 1;
      CutOnce(ts, 1, e);
      DocLinesFirst(ts[0], ts[1..][..e], indent);
      assert ts[..d] == [ts[0]] + ts[1..][..e];
    } else {
      d := 0;
    }
  }

  lemma DocLinesNone(indent: nat)
    ensures DocLines([], indent)
  {
  }

  lemma DocLinesFirst(t: Tok, ts: seq<Tok>, indent: nat)
    requires DocLines(ts, indent) && (t.token.Blank? || (t.token.Comment? && t.token.indent == indent))
    ensures DocLines([t] + ts, indent)
  {
  }

  /** What is left after blank lines. */
  lemma {:induction false} BlanksSkipped(ts: seq<Tok>) returns (b: nat)
    ensures b <= |ts| && AllBlank(ts[..b]) && SkipBlanks(ts) == ts[b..]
  {
    if Head(ts).Blank? {
      var e := BlanksSkipped(ts[1..]);
      b := e + 1;
      assert ts[1..][e..] == ts[b..];
      assert ts[..b] == [ts[0]] + ts[1..][..e];
    } else {
      b := 0;
    }
  }

  lemma {:induction false} SkipsBlanks(ts: seq<Tok>, rest: seq<Tok>)
    requires AllBlank(ts) && !Head(rest).Blank?
    ensures SkipBlanks(ts + rest) == rest
  {
    if ts == [] {
      assert ts + rest == rest;
    } else {
      assert (ts + rest)[1..] == ts[1..] + rest;
      SkipsBlanks(ts[1..], rest);
    }
  }

  // ------------------------------------------------------------------------------------
  // The parser accepts what the grammar describes

  lemma Parted(ts: seq<Tok>, rest: seq<Tok>, d: nat)
    requires d < |ts|
    ensures ts + rest == ts[..d] + ([ts[d]] + (ts[d + 1..] + rest))
  {
  }

  lemma BlockEnds(ts: seq<Tok>, indent: nat, p: Parse, rest: seq<Tok>)
    requires LineAt(ts, indent) == Ok(Some(p), rest)
    requires if rest == [] then true else Head(rest).Indent() < indent
    ensures Block(ts, indent) == Ok([p], rest)
  {
    hide LineAt;
    if rest == [] && indent == 0 {
      NothingThere();
      assert [p] + [] == [p];
    }
  }

  lemma BlockGoesOn(ts: seq<Tok>, indent: nat, p: Parse, rest: seq<Tok>)
    requires LineAt(ts, indent) == Ok(Some(p), rest) && Head(rest).Indent() == indent && Block(rest, indent).Ok?
    ensures Block(ts, indent) == Ok([p] + Block(rest, indent).value, Block(rest, indent).rest)
  {
    hide LineAt;
  }

  lemma {:induction false} TreeParses(ts: seq<Tok>, rest: seq<Tok>, p: Parse, indent: nat)
    requires IsTree(ts, p, indent, rest == []) && Settled(rest)
    requires rest != [] ==> Head(rest).Indent() <= indent
    ensures LineAt(ts + rest, indent) == Ok(Some(p), rest)
    decreases p, 2
  {
    hide LastDocs, IsBody, Comments, SubLines, LineAt;
    var d :| 0 <= d < |ts| &&
      Visible(ts[0].token) && DocLines(ts[..d], indent) && p.doc == LastDocs(ts[..d]) &&
      ts[d] == Tok(Line(indent, p.line), p.lineNo) && IsBody(ts[d + 1..], p.body, indent, rest == []);
    var tail := ts[d + 1..] + rest;
    Parted(ts, rest, d);
    CommentsAre(ts[..d], [ts[d]] + tail, indent, []);
    assert [] + p.doc == p.doc;
    BodyParses(ts[d + 1..], rest, p.body, indent);
    LineUnfold(ts + rest, indent, p.doc, ts[d], tail);
  }

  lemma {:induction false} BodyParses(ts: seq<Tok>, rest: seq<Tok>, ps: seq<Parse>, indent: nat)
    requires IsBody(ts, ps, indent, rest == []) && Settled(rest)
    requires rest != [] ==> Head(rest).Indent() <= indent
    ensures SubLines(ts + rest, indent) == Ok(ps, rest)
    decreases ps, 1
  {
    hide IsForest, Block, SkipBlanks, SubLines, AllBlank;
    var b :| 0 <= b <= |ts| && AllBlank(ts[..b]) &&
      if b == |ts| then ps == []
      else ts[b].token.Indent() > indent && IsForest(ts[b..], ps, ts[b].token.Indent(), rest == []);
    if b == |ts| {
      assert ts[..b] == ts;
      SkipsBlanks(ts, rest);
      AfterBlanks(ts + rest, rest, indent);
    } else {
      ForestStarts(ts[b..], ps, ts[b].token.Indent(), rest == []);
      ForestParses(ts[b..], rest, ps, ts[b].token.Indent());
      assert ts == ts[..b] + ts[b..];
      BlanksThenBlock(ts[..b], ts[b..], rest, indent);
    }
  }

  lemma BlanksThenBlock(blanks: seq<Tok>, ts: seq<Tok>, rest: seq<Tok>, indent: nat)
    requires AllBlank(blanks) && ts != [] && Visible(ts[0].token) && ts[0].token.Indent() > indent
    ensures SubLines(blanks + ts + rest, indent) == Block(ts + rest, ts[0].token.Indent())
  {
    hide Block, SkipBlanks, SubLines, AllBlank;
    assert blanks + ts + rest == blanks + (ts + rest);
    SkipsBlanks(blanks, ts + rest);
    AfterBlanks(blanks + ts + rest, ts + rest, indent);
  }

  lemma AfterBlanks(ts: seq<Tok>, start: seq<Tok>, indent: nat)
    requires SkipBlanks(ts) == start && !Head(start).Unterminated?
    ensures SubLines(ts, indent) == if Head(start).Indent() > indent then Block(start, Head(start).Indent()) else Ok([], start)
  {
    hide SkipBlanks, Block;
  }

  lemma ForestStarts(ts: seq<Tok>, ps: seq<Parse>, indent: nat, end: bool)
    requires IsForest(ts, ps, indent, end)
    ensures ts != [] && Visible(ts[0].token) && ts[0].token.Indent() == indent
  {
  }

  lemma {:induction false} ForestParses(ts: seq<Tok>, rest: seq<Tok>, ps: seq<Parse>, indent: nat)
    requires IsForest(ts, ps, indent, rest == []) && Settled(rest)
    requires rest != [] ==> Head(rest).Indent() < indent
    ensures Block(ts + rest, indent) == Ok(ps, rest)
    decreases ps, 0
  {
    hide IsTree, LineAt, Comments, Block;
    if ps == [] {
      assert ts + rest == ts && ts + [] == ts;
      CommentsAre(ts, [], indent, []);
      NothingToDocument(ts, indent);
    } else {
      var n :| 0 < n <= |ts| && IsTree(ts[..n], ps[0], indent, rest == [] && n == |ts|) &&
        if n == |ts| then ps[1..] == [] else IsForest(ts[n..], ps[1..], indent, rest == []);
      if n == |ts| {
        assert ts[..n] == ts && ps == [ps[0]];
        TreeParses(ts, rest, ps[0], indent);
        BlockEnds(ts + rest, indent, ps[0], rest);
      } else {
        var more := ts[n..] + rest;
        assert ts + rest == ts[..n] + more;
        ForestStarts(ts[n..], ps[1..], indent, rest == []);
        TreeParses(ts[..n], more, ps[0], indent);
        ForestParses(ts[n..], rest, ps[1..], indent);
        BlockGoesOn(ts + rest, indent, ps[0], more);
        assert [ps[0]] + ps[1..] == ps;
      }
    }
  }

  lemma NothingToDocument(ts: seq<Tok>, indent: nat)
    requires Comments(ts, indent, []).Ok? && Comments(ts, indent, []).rest == []
    ensures Block(ts, indent) == Ok([], [])
  {
  }

  // ------------------------------------------------------------------------------------
  // The grammar describes what the parser accepts

  lemma CutOnce(ts: seq<Tok>, a: nat, b: nat)
    requires a + b <= |ts|
    ensures ts[a..][b..] == ts[a + b..] && ts[..a + b][a..] == ts[a..][..b] && ts[..a + b][..a] == ts[..a]
  {
  }

  /** No token is the end of the file. */
  predicate Tokens(ts: seq<Tok>) {
    forall i :: 0 <= i < |ts| ==> !ts[i].token.Eof?
  }

  /** A line is read from a tree at the start of the tokens. */
  lemma {:induction false} LineFound(ts: seq<Tok>, indent: nat) returns (n: nat)
    requires Tokens(ts) && ts != [] && Visible(ts[0].token) && LineAt(ts, indent).Ok? && LineAt(ts, indent).value.Some?
    ensures 0 < n <= |ts| && LineAt(ts, indent).rest == ts[n..]
    ensures IsTree(ts[..n], LineAt(ts, indent).value.value, indent, n == |ts|)
    decreases |ts|, 0
  {
    hide LastDocs, IsBody, SubLines, Comments, LineAt, IsTree, DocLines, Tokens;
    var p := LineAt(ts, indent).value.value;
    LineIs(ts, indent);
    var d := CommentsEnd(ts, indent, []);
    assert ts == ts[..d] + ts[d..];
    CommentsAre(ts[..d], ts[d..], indent, []);
    assert [] + LastDocs(ts[..d]) == LastDocs(ts[..d]);
    assert ts[d..][1..] == ts[d + 1..];
    TokensAfter(ts, d + 1);
    var m := BodyFound(ts[d + 1..], indent);
    n := d + 1 + m;
    CutOnce(ts, d + 1, m);
    PartsOfTree(ts, d, m, p, indent, n == |ts|);
  }

  lemma TokensAfter(ts: seq<Tok>, n: nat)
    requires Tokens(ts) && n <= |ts|
    ensures Tokens(ts[n..])
  {
  }

  lemma PartsOfTree(ts: seq<Tok>, d: nat, m: nat, p: Parse, indent: nat, end: bool)
    requires d + 1 + m <= |ts| && Visible(ts[0].token) && DocLines(ts[..d], indent) && p.doc == LastDocs(ts[..d])
    requires ts[d] == Tok(Line(indent, p.line), p.lineNo) && IsBody(ts[d + 1..][..m], p.body, indent, end)
    ensures IsTree(ts[..d + 1 + m], p, indent, end)
  {
    hide LastDocs, IsBody, DocLines;
    var t := ts[..d + 1 + m];
    CutOnce(ts, d + 1, m);
    assert t[..d] == ts[..d];
    assert t[d] == ts[d];
  }

  /** What a line is made of. */
  lemma LineIs(ts: seq<Tok>, indent: nat)
    requires LineAt(ts, indent).Ok? && LineAt(ts, indent).value.Some?
    ensures var p, docs := LineAt(ts, indent).value.value, Comments(ts, indent, []);
            && docs.Ok? && docs.value == p.doc
            && docs.rest != [] && docs.rest[0] == Tok(Line(indent, p.line), p.lineNo)
            && SubLines(docs.rest[1..], indent) == Ok(p.body, LineAt(ts, indent).rest)
  {
    hide Comments, SubLines;
  }

  lemma {:induction false} BodyFound(ts: seq<Tok>, indent: nat) returns (n: nat)
    requires Tokens(ts) && SubLines(ts, indent).Ok?
    ensures n <= |ts| && SubLines(ts, indent).rest == ts[n..]
    ensures IsBody(ts[..n], SubLines(ts, indent).value, indent, n == |ts|)
    decreases |ts|, 2
  {
    hide IsForest, Block, SkipBlanks;
    var b := BlanksSkipped(ts);
    var start := ts[b..];
    if start != [] && Head(start).Indent() > indent {
      var m := ForestFound(start, Head(start).Indent());
      n := b + m;
      CutOnce(ts, b, m);
      assert ts[..n][b] == ts[b];
      ForestStarts(start[..m], SubLines(ts, indent).value, Head(start).Indent(), m == |start|);
    } else {
      n := b;
      assert ts[..n][..b] == ts[..b];
    }
  }

  lemma {:induction false} ForestFound(ts: seq<Tok>, indent: nat) returns (n: nat)
    requires Tokens(ts) && ts != [] && Visible(ts[0].token) && Head(ts).Indent() == indent && Block(ts, indent).Ok?
    ensures 0 < n <= |ts| && Block(ts, indent).rest == ts[n..]
    ensures IsForest(ts[..n], Block(ts, indent).value, indent, n == |ts|)
    decreases |ts|, 1
  {
    hide LineAt, IsTree;
    var first := LineAt(ts, indent);
    if first.value.None? {
      n := |ts|;
      NothingFound(ts, indent);
      assert ts[..n] == ts;
    } else {
      var m := LineFound(ts, indent);
      var rest := ts[m..];
      assert ts[..m][..m] == ts[..m];
      if rest != [] && Head(rest).Indent() == indent {
        SettledRest(ts, indent);
        var k := ForestFound(rest, indent);
        n := m + k;
        CutOnce(ts, m, k);
        ForestStarts(rest[..k], Block(rest, indent).value, indent, k == |rest|);
      } else {
        n := m;
        if rest == [] && indent == 0 {
          NothingThere();
        }
      }
    }
  }

  lemma NothingFound(ts: seq<Tok>, indent: nat)
    requires Tokens(ts) && LineAt(ts, indent).Ok? && LineAt(ts, indent).value.None?
    ensures DocLines(ts, indent) && LineAt(ts, indent).rest == []
  {
    hide Comments, SubLines, DocLines;
    var d := CommentsEnd(ts, indent, []);
    CommentsStop(ts, indent);
    if d == |ts| {
      assert ts[..d] == ts;
    }
  }

  lemma CommentsStop(ts: seq<Tok>, indent: nat)
    requires LineAt(ts, indent).Ok? && LineAt(ts, indent).value.None?
    ensures var docs := Comments(ts, indent, []); docs.Ok? && !Head(docs.rest).Line? && LineAt(ts, indent).rest == []
  {
    hide Comments;
  }

  lemma SettledRest(ts: seq<Tok>, indent: nat)
    requires LineAt(ts, indent).Ok? && LineAt(ts, indent).value.Some?
    ensures Settled(LineAt(ts, indent).rest)
  {
  }

  lemma {:induction false} BlockStops(ts: seq<Tok>, indent: nat)
    requires Block(ts, indent).Ok?
    ensures Block(ts, indent).rest == [] || Head(Block(ts, indent).rest).Indent() < indent
    decreases |ts|
  {
    hide LineAt;
    var first := LineAt(ts, indent);
    if first.value.Some? && Head(first.rest).Indent() == indent {
      BlockStops(first.rest, indent);
    }
  }

  // ------------------------------------------------------------------------------------
  // Files

  /** Token n is where a file whose first line is indented comes back to the left of it. */
  predicate CutOff(ts: seq<Tok>, n: nat)
    requires n < |ts|
  {
    Visible(ts[n].token) &&
    exists b :: 0 <= b < n && AllBlank(ts[..b]) && Visible(ts[b].token) && ts[n].token.Indent() < ts[b].token.Indent()
  }

  /** The tokens of a file are those of its trees.  What comes after a file has come back to the
      left of its first line is not looked at. */
  predicate IsFile(ts: seq<Tok>, ps: seq<Parse>) {
    exists n :: 0 <= n <= |ts| && IsBody(ts[..n], ps, -1, n == |ts|) && (n < |ts| ==> CutOff(ts, n))
  }

  lemma FileParses(ts: seq<Tok>, ps: seq<Parse>)
    requires IsFile(ts, ps)
    ensures SubLines(ts, -1).Ok? && SubLines(ts, -1).value == ps
  {
    hide IsForest, SubLines, AllBlank;
    var n :| 0 <= n <= |ts| && IsBody(ts[..n], ps, -1, n == |ts|) && (n < |ts| ==> CutOff(ts, n));
    var t, rest := ts[..n], ts[n..];
    var b :| 0 <= b <= |t| && AllBlank(t[..b]) &&
      if b == |t| then ps == [] else t[b].token.Indent() > -1 && IsForest(t[b..], ps, t[b].token.Indent(), n == |ts|);
    assert ts == t + rest;
    if n < |ts| {
      var a :| 0 <= a < n && AllBlank(ts[..a]) && Visible(ts[a].token) && ts[n].token.Indent() < ts[a].token.Indent();
      assert ts[..a] == t[..a] && ts[a] == t[a];
      if b < |t| {
        ForestStarts(t[b..], ps, t[b].token.Indent(), false);
      }
      SameFirst(t, a, b);
    }
    if b == |t| {
      assert t[..b] == ts;
      BlankFile(ts);
    } else {
      PartParses(t, rest, ps, b);
    }
  }

  lemma BlankFile(ts: seq<Tok>)
    requires AllBlank(ts)
    ensures SubLines(ts, -1) == Ok([], [])
  {
    assert ts + [] == ts;
    SkipsBlanks(ts, []);
    NothingThere();
  }

  lemma PartParses(t: seq<Tok>, rest: seq<Tok>, ps: seq<Parse>, b: nat)
    requires b < |t| && AllBlank(t[..b]) && IsForest(t[b..], ps, t[b].token.Indent(), rest == [])
    requires Settled(rest) && (rest != [] ==> Head(rest).Indent() < t[b].token.Indent())
    ensures SubLines(t + rest, -1) == Ok(ps, rest)
  {
    hide IsForest, Block, SkipBlanks;
    ForestStarts(t[b..], ps, t[b].token.Indent(), rest == []);
    assert t + rest == t[..b] + (t[b..] + rest);
    SkipsBlanks(t[..b], t[b..] + rest);
    ForestParses(t[b..], rest, ps, t[b].token.Indent());
  }

  /** The first token that is not blank. */
  lemma SameFirst(t: seq<Tok>, a: nat, b: nat)
    requires a < |t| && AllBlank(t[..a]) && !t[a].token.Blank?
    requires b <= |t| && AllBlank(t[..b]) && (b < |t| ==> !t[b].token.Blank?)
    ensures a == b
  {
    assert forall i :: 0 <= i < a ==> t[..a][i] == t[i];
    assert forall i :: 0 <= i < b ==> t[..b][i] == t[i];
  }

  lemma FileFound(ts: seq<Tok>)
    requires Tokens(ts) && SubLines(ts, -1).Ok?
    ensures IsFile(ts, SubLines(ts, -1).value)
  {
    hide IsForest, Block, SkipBlanks;
    var ps := SubLines(ts, -1).value;
    var b := BlanksSkipped(ts);
    var start := ts[b..];
    if start == [] {
      NothingThere();
      assert ts[..|ts|] == ts;
      assert IsBody(ts, [], -1, true);
    } else {
      var indent := Head(start).Indent();
      var m := ForestFound(start, indent);
      BlockStops(start, indent);
      BlockSettles(start, indent);
      var n := b + m;
      CutOnce(ts, b, m);
      ForestStarts(start[..m], ps, indent, m == |start|);
      assert ts[..n][b] == ts[b];
      assert IsBody(ts[..n], ps, -1, n == |ts|);
      assert n < |ts| ==> CutOff(ts, n);
    }
  }

  lemma BlockSettles(ts: seq<Tok>, indent: nat)
    requires Block(ts, indent).Ok?
    ensures Settled(Block(ts, indent).rest)
  {
    hide Block;
  }

  /** The parser accepts a text as a forest if and only if the grammar says that it is this
      forest: so no text is more than one, the documentation of a line is exactly the comments
      after the last blank line before it, and nothing else is accepted. */
  lemma AcceptsExactly(lines: seq<string>, ps: seq<Parse>)
    ensures ParseText(lines) == Some(ps) <==> IsFile(Scan(lines, 0), ps)
  {
    hide Scan, IsFile, SubLines;
    var ts := Scan(lines, 0);
    if IsFile(ts, ps) {
      FileParses(ts, ps);
    }
    if ParseText(lines).Some? {
      assert Tokens(ts);
      FileFound(ts);
    }
  }

  // ------------------------------------------------------------------------------------
  // Blank lines after documentation

  /** Whether a blank line is put between the documentation of a line and the line itself. */
  predicate Gap(p: Parse, gap: Parse -> bool) {
    p.doc != [] && gap(p)
  }

  /** The rendering of a forest with blank lines after the documentation of some lines. */
  function RenderGaps(p: Parse, indent: nat, step: nat, gap: Parse -> bool): seq<string>
    decreases p
  {
    RenderDocs(p.doc, indent) + (if Gap(p, gap) then ["\n"] else []) + [Spaces(indent) + p.line + "\n"] +
    RenderGapsAll(p.body, indent + step, step, gap)
  }

  function RenderGapsAll(ps: seq<Parse>, indent: nat, step: nat, gap: Parse -> bool): seq<string>
    decreases ps
  {
    if ps == [] then [] else RenderGaps(ps[0], indent, step, gap) + RenderGapsAll(ps[1..], indent, step, gap)
  }

  function GapLines(p: Parse, gap: Parse -> bool): nat
    decreases p
  {
    |p.doc| + (if Gap(p, gap) then 1 else 0) + 1 + GapLinesAll(p.body, gap)
  }

  function GapLinesAll(ps: seq<Parse>, gap: Parse -> bool): nat
    decreases ps
  {
    if ps == [] then 0 else GapLines(ps[0], gap) + GapLinesAll(ps[1..], gap)
  }

  /** The forest without the documentation of those lines, and with every line numbered by its
      place in the rendering, after no lines. */
  function WithoutDocs(p: Parse, no: nat, gap: Parse -> bool): Parse
    decreases p
  {
    var line := no + |p.doc| + (if Gap(p, gap) then 1 else 0) + 1;
    Parse(p.line, WithoutDocsAll(p.body, line, gap), if Gap(p, gap) then [] else p.doc, line)
  }

  function WithoutDocsAll(ps: seq<Parse>, no: nat, gap: Parse -> bool): seq<Parse>
    decreases ps
  {
    if ps == [] then [] else [WithoutDocs(ps[0], no, gap)] + WithoutDocsAll(ps[1..], no + GapLines(ps[0], gap), gap)
  }

  /** The tokens of such a rendering. */
  function DocGapToks(p: Parse, indent: nat, no: nat, gap: Parse -> bool): seq<Tok> {
    DocToks(p.doc, indent, no) + if Gap(p, gap) then [Tok(Blank, no + |p.doc| + 1)] else []
  }

  function GapToks(p: Parse, indent: nat, step: nat, no: nat, gap: Parse -> bool): seq<Tok>
    decreases p
  {
    var line := no + |p.doc| + (if Gap(p, gap) then 1 else 0) + 1;
    DocGapToks(p, indent, no, gap) + [Tok(Line(indent, p.line), line)] +
    GapToksAll(p.body, indent + step, step, line, gap)
  }

  function GapToksAll(ps: seq<Parse>, indent: nat, step: nat, no: nat, gap: Parse -> bool): seq<Tok>
    decreases ps
  {
    if ps == [] then []
    else GapToks(ps[0], indent, step, no, gap) + GapToksAll(ps[1..], indent, step, no + GapLines(ps[0], gap), gap)
  }

  lemma ScanBlank(no: nat)
    ensures Scan(["\n"], no) == [Tok(Blank, no + 1)]
  {
    assert LeadingSpaces("\n") == 0;
    assert Classify("\n") == Some(Blank);
  }

  lemma {:induction false} ScanGapTree(p: Parse, indent: nat, step: nat, no: nat, gap: Parse -> bool)
    requires GoodTree(p)
    ensures |RenderGaps(p, indent, step, gap)| == GapLines(p, gap)
    ensures Scan(RenderGaps(p, indent, step, gap), no) == GapToks(p, indent, step, no, gap)
    decreases p
  {
    hide Classify, GoodLine, Spaces, DocGapToks, RenderDocs, GapToksAll, RenderGapsAll, Gap, Scan;
    var line := Spaces(indent) + p.line + "\n";
    var docs := RenderDocs(p.doc, indent) + if Gap(p, gap) then ["\n"] else [];
    var body := RenderGapsAll(p.body, indent + step, step, gap);
    var n := no + |docs|;
    ScanDocGap(p, indent, no, gap);
    ScanLine(indent, p.line, n);
    ScanGapTrees(p.body, indent + step, step, n + 1, gap);
    ScanConcat(docs, [line], no);
    ScanConcat(docs + [line], body, no);
  }

  lemma ScanLine(indent: nat, text: string, no: nat)
    requires GoodLine(text)
    ensures Scan([Spaces(indent) + text + "\n"], no) == [Tok(Line(indent, text), no + 1)]
  {
    hide Classify, GoodLine, Spaces;
    ClassifyLine(indent, text);
  }

  lemma ScanDocGap(p: Parse, indent: nat, no: nat, gap: Parse -> bool)
    requires forall i :: 0 <= i < |p.doc| ==> !StartsWith(p.doc[i], '#')
    ensures var docs := RenderDocs(p.doc, indent) + if Gap(p, gap) then ["\n"] else [];
            |docs| == |p.doc| + (if Gap(p, gap) then 1 else 0) && Scan(docs, no) == DocGapToks(p, indent, no, gap)
  {
    hide Scan, RenderDocs, Gap;
    ScanDocs(p.doc, indent, no);
    if Gap(p, gap) {
      ScanBlank(no + |p.doc|);
      ScanConcat(RenderDocs(p.doc, indent), ["\n"], no);
    } else {
      assert RenderDocs(p.doc, indent) + [] == RenderDocs(p.doc, indent);
      assert DocToks(p.doc, indent, no) + [] == DocToks(p.doc, indent, no);
    }
  }

  lemma {:induction false} ScanGapTrees(ps: seq<Parse>, indent: nat, step: nat, no: nat, gap: Parse -> bool)
    requires GoodTrees(ps)
    ensures |RenderGapsAll(ps, indent, step, gap)| == GapLinesAll(ps, gap)
    ensures Scan(RenderGapsAll(ps, indent, step, gap), no) == GapToksAll(ps, indent, step, no, gap)
    decreases ps
  {
    hide Classify, RenderGaps, GapToks, GoodTree;
    if ps != [] {
      ScanGapTree(ps[0], indent, step, no, gap);
      ScanGapTrees(ps[1..], indent, step, no + GapLines(ps[0], gap), gap);
      ScanConcat(RenderGaps(ps[0], indent, step, gap), RenderGapsAll(ps[1..], indent, step, gap), no);
    }
  }

  lemma {:induction false} DocToksAre(doc: seq<string>, indent: nat, no: nat)
    ensures DocLines(DocToks(doc, indent, no), indent) && |DocToks(doc, indent, no)| == |doc|
    ensures LastDocs(DocToks(doc, indent, no)) == doc && AllComments(DocToks(doc, indent, no))
  {
    if doc != [] {
      DocToksAre(doc[1..], indent, no + 1);
      LastDocsFirst(Tok(Comment(indent, doc[0]), no + 1), DocToks(doc[1..], indent, no + 1));
    }
  }

  lemma DocGapToksAre(p: Parse, indent: nat, no: nat, gap: Parse -> bool)
    ensures var ts := DocGapToks(p, indent, no, gap);
            && DocLines(ts, indent) && |ts| == |p.doc| + (if Gap(p, gap) then 1 else 0)
            && LastDocs(ts) == (if Gap(p, gap) then [] else p.doc)
            && (ts != [] ==> ts[0].token.Comment? && ts[0].token.indent == indent)
  {
    DocToksAre(p.doc, indent, no);
    var docs, ts := DocToks(p.doc, indent, no), DocGapToks(p, indent, no, gap);
    if Gap(p, gap) {
      assert ts[|ts| - 1].token == Blank;
      assert ts[0] == docs[0];
    } else {
      assert ts == docs;
    }
  }

  lemma {:induction false} GapTreeIs(p: Parse, indent: nat, step: nat, no: nat, gap: Parse -> bool, end: bool)
    requires step > 0
    ensures var ts := GapToks(p, indent, step, no, gap);
            && IsTree(ts, WithoutDocs(p, no, gap), indent, end)
            && ts != [] && Visible(ts[0].token) && ts[0].token.Indent() == indent
    decreases p, 1
  {
    hide DocGapToks, LastDocs, IsBody, GapToksAll, WithoutDocsAll, Gap;
    var ts := GapToks(p, indent, step, no, gap);
    var docs := DocGapToks(p, indent, no, gap);
    var d := |docs|;
    DocGapToksAre(p, indent, no, gap);
    GapBodyIs(p.body, indent, step, no + d + 1, gap, end);
    assert ts[..d] == docs;
    assert ts[d + 1..] == GapToksAll(p.body, indent + step, step, no + d + 1, gap);
    assert ts[d] == Tok(Line(indent, p.line), no + d + 1);
    if d > 0 {
      assert ts[0] == docs[0];
    }
  }

  lemma {:induction false} GapBodyIs(ps: seq<Parse>, indent: nat, step: nat, no: nat, gap: Parse -> bool, end: bool)
    requires step > 0
    ensures IsBody(GapToksAll(ps, indent + step, step, no, gap), WithoutDocsAll(ps, no, gap), indent, end)
    decreases ps, 2
  {
    hide IsForest;
    var ts := GapToksAll(ps, indent + step, step, no, gap);
    assert ts[..0] == [] && ts[0..] == ts;
    if ps != [] {
      GapForestIs(ps, indent + step, step, no, gap, end);
      ForestStarts(ts, WithoutDocsAll(ps, no, gap), indent + step, end);
    }
  }

  lemma {:induction false} GapForestIs(ps: seq<Parse>, indent: nat, step: nat, no: nat, gap: Parse -> bool, end: bool)
    requires step > 0 && ps != []
    ensures IsForest(GapToksAll(ps, indent, step, no, gap), WithoutDocsAll(ps, no, gap), indent, end)
    decreases ps, 1
  {
    hide IsTree, GapToks, WithoutDocs, IsForest;
    var first := GapToks(ps[0], indent, step, no, gap);
    var others := GapToksAll(ps[1..], indent, step, no + GapLines(ps[0], gap), gap);
    var p, more := WithoutDocs(ps[0], no, gap), WithoutDocsAll(ps[1..], no + GapLines(ps[0], gap), gap);
    GapTreeIs(ps[0], indent, step, no, gap, end && |ps| == 1);
    if |ps| > 1 {
      GapForestIs(ps[1..], indent, step, no + GapLines(ps[0], gap), gap, end);
      TreeAndForest(first, others, p, more, indent, end);
    } else {
      assert first + [] == first && [p] + [] == [p];
      OneTree(first, p, indent, end);
    }
  }

  lemma OneTree(ts: seq<Tok>, p: Parse, indent: nat, end: bool)
    requires IsTree(ts, p, indent, end) && ts != [] && Visible(ts[0].token) && ts[0].token.Indent() == indent
    ensures IsForest(ts, [p], indent, end)
  {
    hide IsTree;
    assert ts[..|ts|] == ts;
    assert [p][1..] == [];
  }

  lemma TreeAndForest(ts: seq<Tok>, us: seq<Tok>, p: Parse, ps: seq<Parse>, indent: nat, end: bool)
    requires IsTree(ts, p, indent, false) && ts != [] && Visible(ts[0].token) && ts[0].token.Indent() == indent
    requires IsForest(us, ps, indent, end)
    ensures IsForest(ts + us, [p] + ps, indent, end)
  {
    hide IsTree;
    ForestStarts(us, ps, indent, end);
    assert (ts + us)[..|ts|] == ts && (ts + us)[|ts|..] == us;
    assert ([p] + ps)[1..] == ps;
  }

  /** In the rendering of any documented forest, blank lines put between the documentation of
      some lines and these lines themselves take away the documentation of exactly these lines,
      move the lines after them down, and change nothing else. */
  lemma BlankDropsDocs(ps: seq<Parse>, step: nat, gap: Parse -> bool)
    requires GoodTrees(ps) && step > 0
    ensures ParseText(RenderGapsAll(ps, 0, step, gap)) == Some(WithoutDocsAll(ps, 0, gap))
  {
    hide GoodTrees, IsBody, Scan;
    ScanGapTrees(ps, 0, step, 0, gap);
    var ts := GapToksAll(ps, 0, step, 0, gap);
    FirstLevel(ps, step, gap);
    assert ts[..|ts|] == ts;
    AcceptsExactly(RenderGapsAll(ps, 0, step, gap), WithoutDocsAll(ps, 0, gap));
  }

  lemma FirstLevel(ps: seq<Parse>, step: nat, gap: Parse -> bool)
    requires step > 0
    ensures IsBody(GapToksAll(ps, 0, step, 0, gap), WithoutDocsAll(ps, 0, gap), -1, true)
  {
    hide IsForest;
    var ts := GapToksAll(ps, 0, step, 0, gap);
    assert ts[..0] == [] && ts[0..] == ts;
    if ps != [] {
      GapForestIs(ps, 0, step, 0, gap, true);
      ForestStarts(ts, WithoutDocsAll(ps, 0, gap), 0, true);
    }
  }

  // ------------------------------------------------------------------------------------
  // What each line is

  /** Every line is one of these, and is read as such: a line without its newline, a blank line,
      a true comment, which is not even seen, documentation, or a line of its own. */
  lemma LineKinds(indent: nat, text: string)
    ensures Classify(Spaces(indent) + "\n") == Some(Blank)
    ensures Classify(Spaces(indent) + "##" + text + "\n") == None
    ensures !StartsWith(text, '#') ==> Classify(Spaces(indent) + "#" + text + "\n") == Some(Comment(indent, text))
    ensures GoodLine(text) ==> Classify(Spaces(indent) + text + "\n") == Some(Line(indent, text))
    ensures !Terminated(text) ==> Classify(text) == Some(Unterminated)
  {
    hide Spaces, GoodLine;
    ClassifyIndented(indent, "\n");
    TrueComment(indent, text);
    if !StartsWith(text, '#') {
      ClassifyDoc(indent, text);
    }
    if GoodLine(text) {
      ClassifyLine(indent, text);
    }
  }

  lemma TrueComment(indent: nat, text: string)
    ensures Classify(Spaces(indent) + "##" + text + "\n") == None
  {
    hide Spaces, Classify;
    var content := "##" + text + "\n";
    assert Spaces(indent) + "##" + text + "\n" == Spaces(indent) + content;
    ClassifyIndented(indent, content);
    assert content[0] == '#' && content[1..][0] == '#';
  }

  lemma {:induction false} Indented(line: string) returns (indent: nat, content: string)
    ensures line == Spaces(indent) + content && !StartsWith(content, ' ')
  {
    if StartsWith(line, ' ') {
      var n, rest := Indented(line[1..]);
      indent, content := n + 1, rest;
      assert Spaces(n + 1) == [' '] + Spaces(n);
    } else {
      indent, content := 0, line;
      assert Spaces(0) == "";
    }
  }

  lemma OneOfTheseKinds(line: string) returns (indent: nat, text: string)
    requires forall i :: 0 <= i < |line| - 1 ==> line[i] != '\n'
    ensures
      || !Terminated(line)
      || line == Spaces(indent) + "\n"
      || line == Spaces(indent) + "##" + text + "\n"
      || (line == Spaces(indent) + "#" + text + "\n" && !StartsWith(text, '#'))
      || (line == Spaces(indent) + text + "\n" && GoodLine(text))
  {
    var content;
    indent, content := Indented(line);
    text := "";
    if Terminated(line) {
      EndsAlike(line, indent, content);
      text := ContentKind(content);
      hide Spaces;
      assert Spaces(indent) + ("##" + text + "\n") == Spaces(indent) + "##" + text + "\n";
      assert Spaces(indent) + ("#" + text + "\n") == Spaces(indent) + "#" + text + "\n";
      assert Spaces(indent) + (text + "\n") == Spaces(indent) + text + "\n";
    }
  }

  lemma ContentKind(content: string) returns (text: string)
    requires Terminated(content) && !StartsWith(content, ' ')
    requires forall i :: 0 <= i < |content| - 1 ==> content[i] != '\n'
    ensures
      || content == "\n"
      || content == "##" + text + "\n"
      || (content == "#" + text + "\n" && !StartsWith(text, '#'))
      || (content == text + "\n" && GoodLine(text))
  {
    var n := |content| - 1;
    text := content[..n];
    assert content == text + "\n";
    if StartsWith(content, '#') && StartsWith(content[1..], '#') {
      text := content[2..n];
      assert content == "##" + text + "\n";
    } else if StartsWith(content, '#') {
      text := content[1..n];
      assert content == "#" + text + "\n";
    }
  }

  lemma EndsAlike(line: string, indent: nat, content: string)
    requires Terminated(line) && line == Spaces(indent) + content
    requires forall i :: 0 <= i < |line| - 1 ==> line[i] != '\n'
    ensures Terminated(content) && forall i :: 0 <= i < |content| - 1 ==> content[i] != '\n'
  {
    assert forall i :: 0 <= i < |content| ==> line[indent + i] == content[i];
    assert |line| == indent + |content|;
  }

  /** So a true comment, whatever it says, may be put anywhere. */
  lemma InsertedComment(lines: seq<string>, k: nat, indent: nat, text: string)
    requires k <= |lines|
    ensures var longer := lines[..k] + [Spaces(indent) + "##" + text + "\n"] + lines[k..];
            && ParseText(longer).Some? == ParseText(lines).Some?
            && (ParseText(longer).Some? ==> ErasedAll(ParseText(longer).value) == ErasedAll(ParseText(lines).value))
  {
    hide Classify, ParseText, ErasedAll;
    LineKinds(indent, text);
    InsertedLine(lines, k, Spaces(indent) + "##" + text + "\n");
  }

  // ------------------------------------------------------------------------------------
  // Two files

  const DOCUMENTED := Parse("x", [], ["a"], 0)

  lemma RenderedWithGap(gap: Parse -> bool)
    requires gap(DOCUMENTED)
    ensures RenderGapsAll([DOCUMENTED], 0, 1, gap) == ["#a\n", "\n", "x\n"]
  {
    hide Spaces;
    NoSpaces();
    assert RenderDocs(["a"], 0) == [Spaces(0) + "#" + "a" + "\n"] + RenderDocs([], 0);
    assert Spaces(0) + "#" + "a" + "\n" == "#a\n" && Spaces(0) + "x" + "\n" == "x\n";
    hide RenderDocs;
    assert RenderDocs(["a"], 0) == ["#a\n"] + RenderDocs([], 0) == ["#a\n"];
    assert RenderGaps(DOCUMENTED, 0, 1, gap) == ["#a\n"] + ["\n"] + ["x\n"] + RenderGapsAll([], 1, 1, gap);
  }

  lemma NoSpaces()
    ensures Spaces(0) == "" && forall indent: nat :: RenderDocs([], indent) == []
  {
  }

  /** The documentation of a line is lost to a blank line below it. */
  lemma LostDocumentation()
    ensures ParseText(["#a\n", "\n", "x\n"]) == Some([Parse("x", [], [], 3)])
  {
    var gap := (q: Parse) => true;
    assert GoodTrees([DOCUMENTED]);
    RenderedWithGap(gap);
    BlankDropsDocs([DOCUMENTED], 1, gap);
    hide ParseText, RenderGapsAll;
    assert WithoutDocsAll([DOCUMENTED], 0, gap) == [Parse("x", [], [], 3)];
  }

  /** Whatever follows once a file has come back to the left of its first line is not looked at,
      not even if it is no line at all. */
  lemma RestIsIgnored(ts: seq<Tok>, ps: seq<Parse>, rest: seq<Tok>)
    requires IsBody(ts, ps, -1, false) && ts != [] && Visible(ts[0].token)
    requires rest != [] && Visible(rest[0].token) && rest[0].token.Indent() < ts[0].token.Indent()
    ensures SubLines(ts + rest, -1).Ok? && SubLines(ts + rest, -1).value == ps
  {
    hide IsBody, SubLines;
    var all := ts + rest;
    assert all[..|ts|] == ts && all[..0] == [];
    assert CutOff(all, |ts|);
    FileParses(all, ps);
  }

  /** Nothing is ignored in a file whose first line is not indented. */
  lemma NothingIgnored(ts: seq<Tok>, ps: seq<Parse>)
    requires IsFile(ts, ps)
    requires forall b :: 0 <= b < |ts| && AllBlank(ts[..b]) && Visible(ts[b].token) ==> ts[b].token.Indent() == 0
    ensures IsBody(ts, ps, -1, true)
  {
    hide IsBody;
    var n :| 0 <= n <= |ts| && IsBody(ts[..n], ps, -1, n == |ts|) && (n < |ts| ==> CutOff(ts, n));
    if n == |ts| {
      assert ts[..n] == ts;
    }
  }
}
