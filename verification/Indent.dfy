/** Indented text with documentation lines: a parser with one line of undo, and the renderer it
    inverts. */
module Indent {
  import opened Common

  /** A line with its sub-lines, the documentation above it and its number in the file. */
  datatype Parse = Parse(line: string, body: seq<Parse>, doc: seq<string>, lineNo: nat)

  // ------------------------------------------------------------------------------------
  // Lines

  datatype Token =
    | Eof
    | Unterminated
    | Blank
    | Comment(indent: nat, text: string)
    | Line(indent: nat, text: string)
  {
    function Indent(): nat {
      match this
      case Comment(i, _) => i
      case Line(i, _) => i
      case _ => 0
    }
  }

  function Spaces(n: nat): string {
    seq(n, _ => ' ')
  }

  /** The number of leading spaces. */
  function LeadingSpaces(line: string): (n: nat)
    ensures n <= |line| && (forall i :: 0 <= i < n ==> line[i] == ' ')
  {
    if line == "" || line[0] != ' ' then 0 else 1 + LeadingSpaces(line[1..])
  }

  predicate StartsWith(s: string, c: char) {
    s != "" && s[0] == c
  }

  predicate Terminated(line: string) {
    line != "" && line[|line| - 1] == '\n'
  }

  /** What a line is; nothing for a true comment, which is not even seen. */
  function Classify(line: string): Option<Token> {
    if !Terminated(line) then Some(Unterminated)
    else ClassifyContent(LeadingSpaces(line), line[LeadingSpaces(line)..])
  }

  /** The same for a line whose leading spaces were stripped. */
  function ClassifyContent(indent: nat, content: string): Option<Token>
    requires Terminated(content)
  {
    if content == "\n" then Some(Blank)
    else if StartsWith(content, '#') && StartsWith(content[1..], '#') then None
    else if StartsWith(content, '#') then Some(Comment(indent, content[1..|content| - 1]))
    else Some(Line(indent, content[..|content| - 1]))
  }

  /** A token with the number of its line. */
  datatype Tok = Tok(token: Token, no: nat)

  /** The tokens of the lines from number no on, the true comments left out. */
  function Scan(lines: seq<string>, no: nat): (ts: seq<Tok>)
    ensures forall i :: 0 <= i < |ts| ==> !ts[i].token.Eof?
  {
    if lines == [] then []
    else
      var rest := Scan(lines[1..], no + 1);
      match Classify(lines[0])
      case None => rest
      case Some(t) => [Tok(t, no + 1)] + rest
  }

  // ------------------------------------------------------------------------------------
  // The grammar on tokens

  datatype Result<T> = Failed | Ok(value: T, rest: seq<Tok>)

  function Head(ts: seq<Tok>): Token {
    if ts == [] then Eof else ts[0].token
  }

  /** Nothing is left over that a later look could stumble on. */
  predicate Settled(ts: seq<Tok>) {
    !Head(ts).Blank? && !Head(ts).Unterminated?
  }

  /** The documentation block before a line; a blank line drops what was gathered. */
  function Comments(ts: seq<Tok>, indent: nat, docs: seq<string>): (r: Result<seq<string>>)
    ensures r.Ok? ==> |r.rest| <= |ts| && (Head(r.rest).Eof? || Head(r.rest).Line?)
  {
    match Head(ts)
    case Blank => Comments(ts[1..], indent, [])
    case Unterminated => Failed
    case Comment(i, text) => if i != indent then Failed else Comments(ts[1..], indent, docs + [text])
    case _ => Ok(docs, ts)
  }

  function SkipBlanks(ts: seq<Tok>): (r: seq<Tok>)
    ensures |r| <= |ts| && !Head(r).Blank?
  {
    if Head(ts).Blank? then SkipBlanks(ts[1..]) else ts
  }

  function LineAt(ts: seq<Tok>, indent: nat): (r: Result<Option<Parse>>)
    ensures r.Ok? ==> |r.rest| <= |ts| && (r.value.Some? ==> |r.rest| < |ts| && Settled(r.rest))
    decreases |ts|, 0
  {
    var docs := Comments(ts, indent, []);
    if docs.Failed? then Failed
    else if !Head(docs.rest).Line? then Ok(None, [])
    else if Head(docs.rest).Indent() != indent then Failed
    else
      var body := SubLines(docs.rest[1..], indent);
      if body.Failed? then Failed
      else Ok(Some(Parse(Head(docs.rest).text, body.value, docs.value, docs.rest[0].no)), body.rest)
  }

  function Block(ts: seq<Tok>, indent: nat): (r: Result<seq<Parse>>)
    ensures r.Ok? ==> |r.rest| <= |ts| && Settled(r.rest)
    decreases |ts|, 1
  {
    var first := LineAt(ts, indent);
    if first.Failed? then Failed
    else if first.value.None? then Ok([], [])
    else if Head(first.rest).Indent() > indent then Failed
    else if Head(first.rest).Indent() < indent then Ok([first.value.value], first.rest)
    else
      var more := Block(first.rest, indent);
      if more.Failed? then Failed else Ok([first.value.value] + more.value, more.rest)
  }

  /** The lines below, if the next line is indented further. */
  function SubLines(ts: seq<Tok>, indent: int): (r: Result<seq<Parse>>)
    requires indent >= -1
    ensures r.Ok? ==> |r.rest| <= |ts| && Settled(r.rest)
    decreases |ts|, 2
  {
    var start := SkipBlanks(ts);
    if Head(start).Unterminated? then Failed
    else if Head(start).Indent() > indent then Block(start, Head(start).Indent()) else Ok([], start)
  }

  function ParseText(lines: seq<string>): Option<seq<Parse>> {
    var r := SubLines(Scan(lines, 0), -1);
    if r.Ok? then Some(r.value) else None
  }

  // ------------------------------------------------------------------------------------
  // Rendering

  predicate GoodLine(s: string) {
    s != "" && s[0] != ' ' && s[0] != '#' && s != "\n"
  }

  predicate GoodTree(p: Parse) {
    GoodLine(p.line) && (forall i :: 0 <= i < |p.doc| ==> !StartsWith(p.doc[i], '#')) && GoodTrees(p.body)
  }

  predicate GoodTrees(ps: seq<Parse>) {
    forall i :: 0 <= i < |ps| ==> GoodTree(ps[i])
  }

  function RenderDocs(doc: seq<string>, indent: nat): seq<string> {
    if doc == [] then [] else [Spaces(indent) + "#" + doc[0] + "\n"] + RenderDocs(doc[1..], indent)
  }

  /** Documentation, then the line, then its sub-lines indented by one step more. */
  function Render(p: Parse, indent: nat, step: nat): seq<string>
    decreases p
  {
    RenderDocs(p.doc, indent) + [Spaces(indent) + p.line + "\n"] + RenderAll(p.body, indent + step, step)
  }

  function RenderAll(ps: seq<Parse>, indent: nat, step: nat): seq<string>
    decreases ps
  {
    if ps == [] then [] else Render(ps[0], indent, step) + RenderAll(ps[1..], indent, step)
  }

  /** The tree with every line numbered by its place in the rendering, after no lines. */
  function Numbered(p: Parse, no: nat): Parse
    decreases p
  {
    Parse(p.line, NumberedAll(p.body, no + |p.doc| + 1), p.doc, no + |p.doc| + 1)
  }

  function NumberedAll(ps: seq<Parse>, no: nat): seq<Parse>
    decreases ps
  {
    if ps == [] then [] else [Numbered(ps[0], no)] + NumberedAll(ps[1..], no + Lines(ps[0]))
  }

  function Lines(p: Parse): nat
    decreases p
  {
    |p.doc| + 1 + LinesAll(p.body)
  }

  function LinesAll(ps: seq<Parse>): nat
    decreases ps
  {
    if ps == [] then 0 else Lines(ps[0]) + LinesAll(ps[1..])
  }

  /** The tokens of a rendering. */
  function DocToks(doc: seq<string>, indent: nat, no: nat): seq<Tok> {
    if doc == [] then [] else [Tok(Comment(indent, doc[0]), no + 1)] + DocToks(doc[1..], indent, no + 1)
  }

  function Toks(p: Parse, indent: nat, step: nat, no: nat): seq<Tok>
    decreases p
  {
    DocToks(p.doc, indent, no) + [Tok(Line(indent, p.line), no + |p.doc| + 1)] +
    ToksAll(p.body, indent + step, step, no + |p.doc| + 1)
  }

  function ToksAll(ps: seq<Parse>, indent: nat, step: nat, no: nat): seq<Tok>
    decreases ps
  {
    if ps == [] then [] else Toks(ps[0], indent, step, no) + ToksAll(ps[1..], indent, step, no + Lines(ps[0]))
  }

  lemma {:induction false} SpacesLead(n: nat, s: string)
    requires s != "" && s[0] != ' '
    ensures LeadingSpaces(Spaces(n) + s) == n && (Spaces(n) + s)[n..] == s
  {
    if n == 0 {
      assert Spaces(0) + s == s;
    } else {
      SpacesLead(n - 1, s);
      assert (Spaces(n) + s)[1..] == Spaces(n - 1) + s;
    }
  }

  lemma ClassifyIndented(indent: nat, content: string)
    requires Terminated(content) && content[0] != ' '
    ensures Classify(Spaces(indent) + content) == ClassifyContent(indent, content)
  {
    hide ClassifyContent;
    SpacesLead(indent, content);
  }

  lemma ClassifyDoc(indent: nat, text: string)
    requires !StartsWith(text, '#')
    ensures Classify(Spaces(indent) + "#" + text + "\n") == Some(Comment(indent, text))
  {
    hide Classify, Spaces;
    var content := "#" + text + "\n";
    assert Spaces(indent) + "#" + text + "\n" == Spaces(indent) + content;
    ClassifyIndented(indent, content);
    assert content[1..] == text + "\n";
    assert content[1..|content| - 1] == text;
  }

  lemma ClassifyLine(indent: nat, text: string)
    requires GoodLine(text)
    ensures Classify(Spaces(indent) + text + "\n") == Some(Line(indent, text))
  {
    hide Classify, Spaces;
    var content := text + "\n";
    assert Spaces(indent) + text + "\n" == Spaces(indent) + content;
    ClassifyIndented(indent, content);
    assert content[..|content| - 1] == text;
  }

  lemma {:induction false} ScanConcat(a: seq<string>, b: seq<string>, no: nat)
    ensures Scan(a + b, no) == Scan(a, no) + Scan(b, no + |a|)
  {
    if a == [] {
      assert a + b == b;
    } else {
      ScanConcat(a[1..], b, no + 1);
      assert (a + b)[1..] == a[1..] + b;
    }
  }

  lemma {:induction false} ScanDocs(doc: seq<string>, indent: nat, no: nat)
    requires forall i :: 0 <= i < |doc| ==> !StartsWith(doc[i], '#')
    ensures |RenderDocs(doc, indent)| == |doc|
    ensures Scan(RenderDocs(doc, indent), no) == DocToks(doc, indent, no)
  {
    hide Classify;
    if doc != [] {
      ClassifyDoc(indent, doc[0]);
      ScanDocs(doc[1..], indent, no + 1);
      var lines := RenderDocs(doc, indent);
      assert lines[1..] == RenderDocs(doc[1..], indent);
    }
  }

  lemma {:induction false} ScanTree(p: Parse, indent: nat, step: nat, no: nat)
    requires GoodTree(p)
    ensures |Render(p, indent, step)| == Lines(p)
    ensures Scan(Render(p, indent, step), no) == Toks(p, indent, step, no)
    decreases p
  {
    hide Classify, GoodLine;
    var docs, line := RenderDocs(p.doc, indent), Spaces(indent) + p.line + "\n";
    var body := RenderAll(p.body, indent + step, step);
    ScanDocs(p.doc, indent, no);
    ClassifyLine(indent, p.line);
    ScanTrees(p.body, indent + step, step, no + |p.doc| + 1);
    assert Scan([line], no + |p.doc|) == [Tok(Line(indent, p.line), no + |p.doc| + 1)];
    ScanConcat(docs, [line], no);
    ScanConcat(docs + [line], body, no);
  }

  lemma {:induction false} ScanTrees(ps: seq<Parse>, indent: nat, step: nat, no: nat)
    requires GoodTrees(ps)
    ensures |RenderAll(ps, indent, step)| == LinesAll(ps)
    ensures Scan(RenderAll(ps, indent, step), no) == ToksAll(ps, indent, step, no)
    decreases ps
  {
    hide Classify, Render, Toks, GoodTree, Lines;
    if ps != [] {
      ScanTree(ps[0], indent, step, no);
      ScanTrees(ps[1..], indent, step, no + Lines(ps[0]));
      ScanConcat(Render(ps[0], indent, step), RenderAll(ps[1..], indent, step), no);
    }
  }

  // ------------------------------------------------------------------------------------
  // Parsing inverts rendering

  lemma {:induction false} DocsBack(doc: seq<string>, indent: nat, no: nat, before: seq<string>, rest: seq<Tok>)
    requires Head(rest).Line?
    ensures Comments(DocToks(doc, indent, no) + rest, indent, before) == Ok(before + doc, rest)
  {
    var ts := DocToks(doc, indent, no) + rest;
    if doc == [] {
      assert ts == rest && before + doc == before;
    } else {
      assert ts[1..] == DocToks(doc[1..], indent, no + 1) + rest;
      DocsBack(doc[1..], indent, no + 1, before + [doc[0]], rest);
      assert before + [doc[0]] + doc[1..] == before + doc;
    }
  }

  /** The first token of a rendering stands at its indentation. */
  lemma TreeHead(p: Parse, indent: nat, step: nat, no: nat, rest: seq<Tok>)
    ensures Head(Toks(p, indent, step, no) + rest).Indent() == indent
    ensures Settled(Toks(p, indent, step, no) + rest) && |Toks(p, indent, step, no)| > 0
  {
  }

  lemma NoToks(indent: nat, step: nat, no: nat)
    ensures ToksAll([], indent, step, no) == [] && NumberedAll([], no) == []
  {
  }

  lemma SubLinesUnfold(ts: seq<Tok>, indent: nat)
    requires Settled(ts)
    ensures SubLines(ts, indent) ==
            if Head(ts).Indent() > indent then Block(ts, Head(ts).Indent()) else Ok([], ts)
  {
  }

  lemma LineUnfold(ts: seq<Tok>, indent: nat, docs: seq<string>, line: Tok, tail: seq<Tok>)
    requires Comments(ts, indent, []) == Ok(docs, [line] + tail)
    requires line.token.Line? && line.token.indent == indent && SubLines(tail, indent).Ok?
    ensures LineAt(ts, indent) ==
            var r := SubLines(tail, indent); Ok(Some(Parse(line.token.text, r.value, docs, line.no)), r.rest)
  {
  }

  lemma {:induction false} TreeBack(p: Parse, indent: nat, step: nat, no: nat, rest: seq<Tok>)
    requires step > 0 && Head(rest).Indent() <= indent && Settled(rest)
    ensures LineAt(Toks(p, indent, step, no) + rest, indent) == Ok(Some(Numbered(p, no)), rest)
    decreases p, 0
  {
    hide Comments, DocToks, Block, ToksAll, LineAt, SubLines;
    var line := Tok(Line(indent, p.line), no + |p.doc| + 1);
    var body := ToksAll(p.body, indent + step, step, no + |p.doc| + 1) + rest;
    assert Toks(p, indent, step, no) + rest == DocToks(p.doc, indent, no) + ([line] + body);
    DocsBack(p.doc, indent, no, [], [line] + body);
    assert [] + p.doc == p.doc;
    if p.body == [] {
      NoToks(indent + step, step, no + |p.doc| + 1);
      assert [] + rest == rest;
    } else {
      TreesBack(p.body, indent + step, step, no + |p.doc| + 1, rest);
    }
    SubLinesUnfold(body, indent);
    LineUnfold(Toks(p, indent, step, no) + rest, indent, p.doc, line, body);
  }

  lemma {:induction false} TreesBack(ps: seq<Parse>, indent: nat, step: nat, no: nat, rest: seq<Tok>)
    requires step > 0 && ps != [] && Settled(rest)
    requires Head(rest).Indent() < indent || (rest == [] && indent == 0)
    ensures Block(ToksAll(ps, indent, step, no) + rest, indent) == Ok(NumberedAll(ps, no), rest)
    ensures Head(ToksAll(ps, indent, step, no) + rest).Indent() == indent
    ensures Settled(ToksAll(ps, indent, step, no) + rest)
    decreases ps, 1
  {
    hide LineAt, Toks;
    var after := ToksAll(ps[1..], indent, step, no + Lines(ps[0])) + rest;
    var ts := ToksAll(ps, indent, step, no) + rest;
    assert ts == Toks(ps[0], indent, step, no) + after;
    TreeHead(ps[0], indent, step, no, after);
    if |ps| == 1 {
      assert after == rest;
      TreeBack(ps[0], indent, step, no, rest);
      assert NumberedAll(ps, no) == [Numbered(ps[0], no)];
      if rest == [] && indent == 0 {
        NothingThere();
      }
    } else {
      TreesBack(ps[1..], indent, step, no + Lines(ps[0]), rest);
      TreeBack(ps[0], indent, step, no, after);
    }
  }

  lemma NothingThere()
    ensures Block([], 0) == Ok([], [])
  {
  }

  /** Parsing the rendering of any documented forest gives it back, with the numbers of the
      lines it was rendered to. */
  lemma RoundTrip(ps: seq<Parse>, step: nat)
    requires GoodTrees(ps) && step > 0
    ensures ParseText(RenderAll(ps, 0, step)) == Some(NumberedAll(ps, 0))
  {
    ScanTrees(ps, 0, step, 0);
    var ts := ToksAll(ps, 0, step, 0);
    assert ts + [] == ts;
    if ps == [] {
      NothingThere();
    } else {
      TreesBack(ps, 0, step, 0, []);
    }
  }

  // ------------------------------------------------------------------------------------
  // What does not matter

  /** The same tokens on lines numbered otherwise. */
  ghost predicate Same(ts: seq<Tok>, us: seq<Tok>) {
    |ts| == |us| && forall i :: 0 <= i < |ts| ==> ts[i].token == us[i].token
  }

  function Erased(p: Parse): Parse
    decreases p
  {
    Parse(p.line, ErasedAll(p.body), p.doc, 0)
  }

  function ErasedAll(ps: seq<Parse>): (r: seq<Parse>)
    ensures |r| == |ps|
    decreases ps
  {
    if ps == [] then [] else [Erased(ps[0])] + ErasedAll(ps[1..])
  }

  lemma {:induction false} CommentsSame(ts: seq<Tok>, us: seq<Tok>, indent: nat, docs: seq<string>)
    requires Same(ts, us)
    ensures Comments(ts, indent, docs).Failed? == Comments(us, indent, docs).Failed?
    ensures Comments(ts, indent, docs).Ok? ==>
              && Comments(ts, indent, docs).value == Comments(us, indent, docs).value
              && Same(Comments(ts, indent, docs).rest, Comments(us, indent, docs).rest)
  {
    match Head(ts)
    case Blank => CommentsSame(ts[1..], us[1..], indent, []);
    case Comment(_, text) => CommentsSame(ts[1..], us[1..], indent, docs + [text]);
    case _ =>
  }

  lemma {:induction false} SkipSame(ts: seq<Tok>, us: seq<Tok>)
    requires Same(ts, us)
    ensures Same(SkipBlanks(ts), SkipBlanks(us))
  {
    if Head(ts).Blank? {
      SkipSame(ts[1..], us[1..]);
    }
  }

  /** Results that differ in line numbers only. */
  ghost predicate SameLine(r: Result<Option<Parse>>, q: Result<Option<Parse>>) {
    && r.Failed? == q.Failed?
    && (r.Ok? ==> Same(r.rest, q.rest) && r.value.Some? == q.value.Some?
                  && (r.value.Some? ==> Erased(r.value.value) == Erased(q.value.value)))
  }

  ghost predicate SameLines(r: Result<seq<Parse>>, q: Result<seq<Parse>>) {
    r.Failed? == q.Failed? && (r.Ok? ==> Same(r.rest, q.rest) && ErasedAll(r.value) == ErasedAll(q.value))
  }

  lemma {:induction false} LineSame(ts: seq<Tok>, us: seq<Tok>, indent: nat)
    requires Same(ts, us)
    ensures SameLine(LineAt(ts, indent), LineAt(us, indent))
    decreases |ts|, 0
  {
    hide Comments;
    CommentsSame(ts, us, indent, []);
    var docs, docs' := Comments(ts, indent, []), Comments(us, indent, []);
    if docs.Ok? && Head(docs.rest).Line? && Head(docs.rest).Indent() == indent {
      SubLinesSame(docs.rest[1..], docs'.rest[1..], indent);
    }
  }

  lemma {:induction false} BlockSame(ts: seq<Tok>, us: seq<Tok>, indent: nat)
    requires Same(ts, us)
    ensures SameLines(Block(ts, indent), Block(us, indent))
    decreases |ts|, 1
  {
    hide LineAt;
    LineSame(ts, us, indent);
    var first, first' := LineAt(ts, indent), LineAt(us, indent);
    if first.Ok? && first.value.Some? && Head(first.rest).Indent() == indent {
      BlockSame(first.rest, first'.rest, indent);
    }
  }

  lemma {:induction false} SubLinesSame(ts: seq<Tok>, us: seq<Tok>, indent: int)
    requires Same(ts, us) && indent >= -1
    ensures SameLines(SubLines(ts, indent), SubLines(us, indent))
    decreases |ts|, 2
  {
    SkipSame(ts, us);
    var start := SkipBlanks(ts);
    if Head(start).Indent() > indent {
      BlockSame(start, SkipBlanks(us), Head(start).Indent());
    }
  }

  /** The tokens without the blank lines that do not cut off documentation. */
  function Thin(ts: seq<Tok>, afterDoc: bool): seq<Tok> {
    if ts == [] then []
    else if ts[0].token.Blank? && !afterDoc then Thin(ts[1..], false)
    else [ts[0]] + Thin(ts[1..], ts[0].token.Comment?)
  }

  function ThinRest<T>(r: Result<T>): Result<T> {
    if r.Failed? then r else r.(rest := Thin(r.rest, false))
  }

  lemma {:induction false} CommentsThin(ts: seq<Tok>, indent: nat, docs: seq<string>)
    ensures Comments(Thin(ts, docs != []), indent, docs) == ThinRest(Comments(ts, indent, docs))
  {
    if ts != [] {
      assert ([ts[0]] + Thin(ts[1..], ts[0].token.Comment?))[1..] == Thin(ts[1..], ts[0].token.Comment?);
      match Head(ts)
      case Blank => CommentsThin(ts[1..], indent, []);
      case Comment(_, text) => CommentsThin(ts[1..], indent, docs + [text]);
      case _ =>
    }
  }

  lemma {:induction false} SkipThin(ts: seq<Tok>)
    ensures SkipBlanks(Thin(ts, false)) == Thin(SkipBlanks(ts), false)
    ensures Head(Thin(SkipBlanks(ts), false)) == Head(SkipBlanks(ts))
  {
    if Head(ts).Blank? {
      SkipThin(ts[1..]);
    }
  }

  lemma {:induction false} LineThin(ts: seq<Tok>, indent: nat)
    ensures LineAt(Thin(ts, false), indent) == ThinRest(LineAt(ts, indent))
    decreases |ts|, 0
  {
    hide Comments;
    CommentsThin(ts, indent, []);
    var docs := Comments(ts, indent, []);
    if docs.Ok? && Head(docs.rest).Line? && Head(docs.rest).Indent() == indent {
      SubLinesThin(docs.rest[1..], indent);
      assert Thin(docs.rest, false)[1..] == Thin(docs.rest[1..], false);
    }
  }

  lemma {:induction false} BlockThin(ts: seq<Tok>, indent: nat)
    ensures Block(Thin(ts, false), indent) == ThinRest(Block(ts, indent))
    decreases |ts|, 1
  {
    hide LineAt;
    LineThin(ts, indent);
    var first := LineAt(ts, indent);
    if first.Ok? && first.value.Some? && Head(first.rest).Indent() == indent {
      BlockThin(first.rest, indent);
    }
  }

  lemma {:induction false} SubLinesThin(ts: seq<Tok>, indent: int)
    requires indent >= -1
    ensures SubLines(Thin(ts, false), indent) == ThinRest(SubLines(ts, indent))
    decreases |ts|, 2
  {
    SkipThin(ts);
    var start := SkipBlanks(ts);
    if Head(start).Indent() > indent {
      BlockThin(start, Head(start).Indent());
    }
  }

  /** Texts that show the same tokens, blank lines aside that cut off no documentation, parse to
      the same trees but for the line numbers. */
  lemma LayoutDoesNotMatter(a: seq<string>, b: seq<string>)
    requires Same(Thin(Scan(a, 0), false), Thin(Scan(b, 0), false))
    ensures ParseText(a).Some? == ParseText(b).Some?
    ensures ParseText(a).Some? ==> ErasedAll(ParseText(a).value) == ErasedAll(ParseText(b).value)
  {
    SubLinesThin(Scan(a, 0), -1);
    SubLinesThin(Scan(b, 0), -1);
    SubLinesSame(Thin(Scan(a, 0), false), Thin(Scan(b, 0), false), -1);
  }

  lemma {:induction false} ScanElsewhere(lines: seq<string>, no: nat, other: nat)
    ensures Same(Scan(lines, no), Scan(lines, other))
  {
    if lines != [] {
      ScanElsewhere(lines[1..], no + 1, other + 1);
    }
  }

  lemma {:induction false} ThinSame(ts: seq<Tok>, us: seq<Tok>, afterDoc: bool)
    requires Same(ts, us)
    ensures Same(Thin(ts, afterDoc), Thin(us, afterDoc))
  {
    if ts != [] {
      ThinSame(ts[1..], us[1..], ts[0].token.Comment?);
    }
  }

  /** Whether the last token is documentation. */
  predicate EndsInDoc(ts: seq<Tok>, afterDoc: bool) {
    if ts == [] then afterDoc else ts[|ts| - 1].token.Comment?
  }

  lemma {:induction false} ThinConcat(ts: seq<Tok>, us: seq<Tok>, afterDoc: bool)
    ensures Thin(ts + us, afterDoc) == Thin(ts, afterDoc) + Thin(us, EndsInDoc(ts, afterDoc))
  {
    if ts == [] {
      assert ts + us == us;
    } else {
      assert (ts + us)[1..] == ts[1..] + us;
      ThinConcat(ts[1..], us, ts[0].token.Comment?);
    }
  }

  /** A true comment may stand anywhere, and a blank line anywhere but after documentation. */
  lemma InsertedLine(lines: seq<string>, k: nat, extra: string)
    requires k <= |lines|
    requires Classify(extra).None? || (Classify(extra) == Some(Blank) && !EndsInDoc(Scan(lines[..k], 0), false))
    ensures var longer := lines[..k] + [extra] + lines[k..];
            && ParseText(longer).Some? == ParseText(lines).Some?
            && (ParseText(longer).Some? ==> ErasedAll(ParseText(longer).value) == ErasedAll(ParseText(lines).value))
  {
    hide Classify, ParseText, ErasedAll, EndsInDoc;
    var before, after := lines[..k], lines[k..];
    var longer := before + [extra] + after;
    ScanConcat(before, after, 0);
    ScanConcat(before + [extra], after, 0);
    ScanConcat(before, [extra], 0);
    assert before + after == lines;
    ScanElsewhere(after, k, k + 1);
    var ts, us, us' := Scan(before, 0), Scan(after, k), Scan(after, k + 1);
    var gap := Scan([extra], k);
    assert Scan(longer, 0) == ts + (gap + us');
    ThinConcat(ts, us, false);
    ThinConcat(ts, gap + us', false);
    ThinSame(us, us', EndsInDoc(ts, false));
    assert Thin(gap + us', EndsInDoc(ts, false)) == Thin(us', EndsInDoc(ts, false)) by {
      if gap == [] {
        assert gap + us' == us';
      } else {
        assert (gap + us')[1..] == us';
      }
    }
    LayoutDoesNotMatter(longer, lines);
  }

  // ------------------------------------------------------------------------------------
  // The parser

  /** Lines read one at a time, of which the last may be put back. */
  class ReadLines {
    const input: seq<string>
    var pos: nat
    var undone: bool
    var result: Token
    var lineNo: nat

    ghost predicate Valid()
      reads this
    {
      && pos <= |input|
      && (result.Eof? ==> pos == |input|)
      && (!result.Eof? ==> lineNo == pos)
    }

    /** The tokens still to be read. */
    ghost function Pending(): (ts: seq<Tok>)
      reads this
      ensures forall i :: 0 <= i < |ts| ==> !ts[i].token.Eof?
    {
      if undone && !result.Eof? then [Tok(result, lineNo)] + Unread() else Unread()
    }

    ghost function Unread(): seq<Tok>
      reads this
    {
      if pos <= |input| then Scan(input[pos..], pos) else []
    }

    constructor (input: seq<string>)
      ensures Valid() && Pending() == Scan(input, 0)
    {
      this.input := input;
      pos, undone, result, lineNo := 0, false, Blank, 0;
      new;
      assert input[0..] == input;
    }

    /** The next line of the file, true comments included. */
    method NextLine() returns (t: Option<Token>)
      requires Valid()
      modifies `pos, `lineNo
      ensures pos <= |input| && old(pos) <= pos
      ensures t.Some? ==> old(Unread()) == if t.value.Eof? then [] else [Tok(t.value, lineNo)] + Unread()
      ensures t.Some? && t.value.Eof? ==> pos == |input| == old(pos)
      ensures t.None? ==> old(Unread()) == Unread()
      ensures t.None? || !t.value.Eof? ==> pos == old(pos) + 1 && lineNo == pos
    {
      lineNo := lineNo + 1;
      if pos == |input| {
        t := Some(Eof);
      } else {
        assert input[pos..][1..] == input[pos + 1..];
        t := Classify(input[pos]);
        pos := pos + 1;
      }
    }

    method Fill(undo: bool) returns (t: Token)
      requires Valid()
      modifies `pos, `lineNo, `undone, `result
      ensures Valid() && t == result == Head(old(Pending())) && undone == undo
      ensures !t.Eof? ==> lineNo == old(Pending())[0].no
      ensures Pending() == if undo || old(Pending()) == [] then old(Pending()) else old(Pending())[1..]
    {
      if !undone {
        var next := NextLine();
        while next.None?
          invariant pos <= |input| && (result.Eof? ==> pos == |input|) && (next.None? ==> lineNo == pos)
          invariant next.None? ==> Unread() == old(Unread())
          invariant next.Some? ==>
                      old(Unread()) == if next.value.Eof? then [] else [Tok(next.value, lineNo)] + Unread()
          invariant next.Some? && next.value.Eof? ==> pos == |input|
          invariant next.Some? && !next.value.Eof? ==> lineNo == pos
          decreases |input| - pos, if next.None? then 1 else 0
        {
          next := NextLine();
        }
        result := next.value;
      }
      undone := undo;
      t := result;
    }

    method ReadLine() returns (t: Token)
      requires Valid()
      modifies `pos, `lineNo, `undone, `result
      ensures Valid() && t == result == Head(old(Pending())) && !undone
      ensures !t.Eof? ==> lineNo == old(Pending())[0].no
      ensures Pending() == if old(Pending()) == [] then [] else old(Pending())[1..]
    {
      t := Fill(false);
    }

    method Lookahead() returns (t: Token)
      requires Valid()
      modifies `pos, `lineNo, `undone, `result
      ensures Valid() && t == Head(Pending()) && Pending() == old(Pending())
    {
      t := Fill(true);
    }

    /** Puts back the line read last. */
    method Undo()
      requires Valid() && !undone
      modifies `undone
      ensures Valid() && Pending() == (if result.Eof? then [] else [Tok(result, lineNo)]) + old(Pending())
    {
      undone := true;
    }
  }

  lemma PutBack(ts: seq<Tok>)
    ensures ts != [] ==> [Tok(Head(ts), ts[0].no)] + ts[1..] == ts
  {
  }

  /** Gathers the documentation block before a line. */
  method ParseComments(input: ReadLines, indent: nat) returns (r: Option<seq<string>>)
    requires input.Valid()
    modifies input
    ensures input.Valid()
    ensures r.Some? == Comments(old(input.Pending()), indent, []).Ok?
    ensures r.Some? ==> Comments(old(input.Pending()), indent, []) == Ok(r.value, input.Pending())
  {
    hide ReadLines.Pending;
    var comments: seq<string> := [];
    var done := false;
    while !done
      invariant input.Valid()
      invariant !done ==> Comments(input.Pending(), indent, comments) == Comments(old(input.Pending()), indent, [])
      invariant done ==> Comments(old(input.Pending()), indent, []) == Ok(comments, input.Pending())
      decreases if done then 0 else 1, |input.Pending()|
    {
      ghost var ts := input.Pending();
      PutBack(ts);
      var token := input.ReadLine();
      match token {
        case Blank =>
          comments := [];
        case Unterminated =>
          return None;
        case Comment(i, text) =>
          if indent != i {
            return None;
          }
          comments := comments + [text];
        case _ =>
          input.Undo();
          done := true;
      }
    }
    r := Some(comments);
  }

  /** Reads on to the first line that is not blank, and puts it back. */
  method FindNewIndent(input: ReadLines) returns (r: Option<nat>)
    requires input.Valid()
    modifies input
    ensures input.Valid() && input.Pending() == SkipBlanks(old(input.Pending()))
    ensures r.Some? == !Head(input.Pending()).Unterminated?
    ensures r.Some? ==> r.value == Head(input.Pending()).Indent()
  {
    hide ReadLines.Pending;
    PutBack(input.Pending());
    var token := input.ReadLine();
    while token.Blank?
      invariant input.Valid() && !input.undone && token == input.result
      invariant token.Blank? ==> SkipBlanks(input.Pending()) == SkipBlanks(old(input.Pending()))
      invariant !token.Blank? && !token.Eof? ==>
                  [Tok(token, input.lineNo)] + input.Pending() == SkipBlanks(old(input.Pending()))
      invariant token.Eof? ==> [] == input.Pending() == SkipBlanks(old(input.Pending()))
      decreases |input.Pending()|, if token.Blank? then 1 else 0
    {
      PutBack(input.Pending());
      token := input.ReadLine();
    }
    if !token.Eof? {
      input.Undo();
    }
    r := if token.Unterminated? then None else Some(token.Indent());
  }

  /** A line at the given indentation with its documentation and sub-lines; the outer option is
      for failure, the inner for the end of the file. */
  method ParseLine(input: ReadLines, indent: nat) returns (r: Option<Option<Parse>>)
    requires input.Valid()
    modifies input
    ensures input.Valid()
    ensures r.Some? == LineAt(old(input.Pending()), indent).Ok?
    ensures r.Some? ==> LineAt(old(input.Pending()), indent) == Ok(r.value, input.Pending())
    decreases |input.Pending()|, 0
  {
    hide ReadLines.Pending, Comments, SubLines;
    var comments := ParseComments(input, indent);
    if comments.None? {
      return None;
    }
    var token := input.ReadLine();
    var lineNo := input.lineNo;
    if token.Eof? {
      return Some(None);
    }
    if token.Indent() != indent {
      return None;
    }
    var body := ParseSubLines(input, indent);
    r := if body.Some? then Some(Some(Parse(token.text, body.value, comments.value, lineNo))) else None;
  }

  /** The lines indented further, which must all stand at the same indentation. */
  method ParseSubLines(input: ReadLines, indent: int) returns (r: Option<seq<Parse>>)
    requires input.Valid() && indent >= -1
    modifies input
    ensures input.Valid()
    ensures r.Some? == SubLines(old(input.Pending()), indent).Ok?
    ensures r.Some? ==> SubLines(old(input.Pending()), indent) == Ok(r.value, input.Pending())
    decreases |input.Pending()|, 2
  {
    hide ReadLines.Pending, LineAt, Block, Continues;
    var lines: seq<Parse> := [];
    var found := FindNewIndent(input);
    if found.None? {
      return None;
    }
    if found.value > indent {
      var level := found.value;
      ghost var start := input.Pending();
      var more := true;
      NoneYet(start, level);
      while more
        invariant input.Valid() && |input.Pending()| <= |start|
        invariant more ==> Continues(start, level, lines, input.Pending())
        invariant !more ==> Block(start, level) == Ok(lines, input.Pending())
        decreases if more then 1 else 0, |input.Pending()|
      {
        ghost var ts := input.Pending();
        NoMore(start, level, lines, ts);
        var line := ParseLine(input, level);
        if line.None? {
          return None;
        }
        if line.value.None? {
          more := false;
        } else {
          OneMore(start, level, lines, ts, line.value.value, input.Pending());
          lines := lines + [line.value.value];
          var next := input.Lookahead();
          if next.Indent() > level {
            return None;
          } else if next.Indent() < level {
            more := false;
          }
        }
      }
    }
    r := Some(lines);
  }

  /** The block that begins at start has these lines and then those of the block at rest. */
  ghost predicate Continues(start: seq<Tok>, indent: nat, lines: seq<Parse>, rest: seq<Tok>) {
    var whole, others := Block(start, indent), Block(rest, indent);
    && whole.Failed? == others.Failed?
    && (others.Ok? ==> whole == Ok(lines + others.value, others.rest))
  }

  lemma NoneYet(start: seq<Tok>, indent: nat)
    ensures Continues(start, indent, [], start)
  {
    hide Block;
    var others := Block(start, indent);
    if others.Ok? {
      assert [] + others.value == others.value;
    }
  }

  lemma OneMore(start: seq<Tok>, indent: nat, lines: seq<Parse>, ts: seq<Tok>, line: Parse, rest: seq<Tok>)
    requires Continues(start, indent, lines, ts) && LineAt(ts, indent) == Ok(Some(line), rest)
    ensures Head(rest).Indent() == indent ==> Continues(start, indent, lines + [line], rest)
    ensures Head(rest).Indent() < indent ==> Block(start, indent) == Ok(lines + [line], rest)
    ensures Head(rest).Indent() > indent ==> Block(start, indent).Failed?
  {
    hide LineAt;
    if Head(rest).Indent() == indent && Block(rest, indent).Ok? {
      var others := Block(rest, indent).value;
      assert (lines + [line]) + others == lines + ([line] + others);
    }
  }

  lemma NoMore(start: seq<Tok>, indent: nat, lines: seq<Parse>, ts: seq<Tok>)
    requires Continues(start, indent, lines, ts)
    ensures LineAt(ts, indent).Failed? ==> Block(start, indent).Failed?
    ensures LineAt(ts, indent).Ok? && LineAt(ts, indent).value.None? ==>
              Block(start, indent) == Ok(lines, LineAt(ts, indent).rest)
  {
    assert lines + [] == lines;
  }

  /** Parses a whole file. */
  method ParseFile(lines: seq<string>) returns (r: Option<seq<Parse>>)
    ensures r == ParseText(lines)
  {
    var input := new ReadLines(lines);
    r := ParseSubLines(input, -1);
  }
}
