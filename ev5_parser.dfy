/** The EV5 block parser (parse_ev5_blocks): a file's lines become named
    blocks of record lines, opened by `--- NAME ---` header lines. */
module Ev5Parser {
  import opened Text

  datatype Option<T> = None | Some(value: T)

  // ---------------------------------------------------------------------
  // The header line  ^-{2,}\s*([A-Z ]+)\s*-{2,}$

  /** Every character of s[i..j] is '-'. */
  ghost predicate DashIn(s: string, i: int, j: int) {
    0 <= i <= j <= |s| && forall k :: i <= k < j ==> s[k] == '-'
  }

  predicate IsNameChar(c: char) {
    'A' <= c <= 'Z' || c == ' '
  }

  predicate AllNameChars(s: string) {
    forall i :: 0 <= i < |s| ==> IsNameChar(s[i])
  }

  predicate HasNameChar(s: string) {
    exists i :: 0 <= i < |s| && IsNameChar(s[i])
  }

  /** The first index at or after `i` that does not hold '-'. */
  function DashRunFrom(s: string, i: int): (n: int)
    requires 0 <= i <= |s|
    ensures i <= n <= |s| && DashIn(s, i, n)
    ensures n < |s| ==> s[n] != '-'
    decreases |s| - i
  {
    if i == |s| || s[i] != '-' then i else DashRunFrom(s, i + 1)
  }

  /** The least index from which s[..j] ends in '-'. */
  function DashRunTo(s: string, j: int): (n: int)
    requires 0 <= j <= |s|
    ensures 0 <= n <= j && DashIn(s, n, j)
    ensures 0 < n ==> s[n - 1] != '-'
    decreases j
  {
    if j == 0 || s[j - 1] != '-' then j else DashRunTo(s, j - 1)
  }

  /** Where the run of '-' that starts the line ends. */
  function HeadDashEnd(s: string): (a: nat)
    ensures a <= |s|
  {
    DashRunFrom(s, 0)
  }

  /** Where the run of '-' that ends the line starts. */
  function TailDashStart(s: string): (e: nat)
    ensures e <= |s|
  {
    DashRunTo(s, |s|)
  }

  /** Whether a trimmed line is a block header: at least two dashes on each
      side, and between them a name of capital letters and spaces with only
      whitespace around it. */
  predicate IsHeader(line: string) {
    var a := HeadDashEnd(line);
    var e := TailDashStart(line);
    2 <= a < e <= |line| - 2 &&
    AllNameChars(Trim(line[a..e])) && HasNameChar(line[a..e])
  }

  /** The block a header opens: the captured name, stripped and upper-cased. */
  function HeaderName(line: string): (name: string)
    requires IsHeader(line)
    ensures AllNameChars(name) && Trimmed(name)
  {
    var t := Trim(line[HeadDashEnd(line)..TailDashStart(line)]);
    UpperResult(t);
    Upper(t)
  }

  /** The regular expression read literally: a run of at least two dashes
      s[..p], whitespace s[p..q], the captured group s[q..r] of capital letters
      and spaces, whitespace s[r..t], and a run of at least two dashes s[t..]
      that ends the line. */
  ghost predicate HeaderSplit(s: string, p: int, q: int, r: int, t: int) {
    && 2 <= p <= q < r <= t <= |s| - 2
    && DashIn(s, 0, p) && SpaceIn(s, p, q) && AllNameChars(s[q..r])
    && SpaceIn(s, r, t) && DashIn(s, t, |s|)
  }

  ghost predicate MatchesHeaderPattern(s: string) {
    exists p, q, r, t :: HeaderSplit(s, p, q, r, t)
  }

  lemma {:induction false} DashRunFromAt(s: string, i: int, n: int)
    requires i <= n && DashIn(s, i, n) && (n < |s| ==> s[n] != '-')
    ensures DashRunFrom(s, i) == n
    decreases n - i
  {
    if i < n {
      DashRunFromAt(s, i + 1, n);
    }
  }

  lemma {:induction false} DashRunToAt(s: string, j: int, n: int)
    requires DashIn(s, n, j) && (0 < n ==> s[n - 1] != '-')
    ensures DashRunTo(s, j) == n
    decreases j - n
  {
    if n < j {
      DashRunToAt(s, j - 1, n);
    }
  }

  /** Every character of strip(x) is a character of x. */
  lemma {:induction false} TrimChars(x: string)
    ensures forall k :: 0 <= k < |Trim(x)| ==> Trim(x)[k] in x
  {
    var r := Trim(x);
    var i := StripStart(x);
    TrimWraps(x);
    forall k | 0 <= k < |r| ensures r[k] in x {
      assert r[k] == x[i..i + |r|][k] == x[i + k];
    }
  }

  /** The dash runs the regular expression matches are the line's whole
      leading and trailing runs of '-'. */
  lemma {:induction false} SplitDashes(s: string, p: int, q: int, r: int, t: int)
    requires HeaderSplit(s, p, q, r, t)
    ensures HeadDashEnd(s) == p && TailDashStart(s) == t
  {
    assert s[p] != '-' by {
      if p < q { assert IsSpace(s[p]); } else { assert IsNameChar(s[q..r][0]); }
    }
    DashRunFromAt(s, 0, p);
    assert s[t - 1] != '-' by {
      if r < t { assert IsSpace(s[t - 1]); } else { assert IsNameChar(s[q..r][r - q - 1]); }
    }
    DashRunToAt(s, |s|, t);
  }

  /** Between the dash runs, stripping leaves the stripped captured group. */
  lemma {:induction false} SplitMiddle(s: string, p: int, q: int, r: int, t: int)
    requires HeaderSplit(s, p, q, r, t)
    ensures Trim(s[p..t]) == Trim(s[q..r])
    ensures AllNameChars(Trim(s[q..r])) && HasNameChar(s[p..t])
  {
    var mid := s[p..t];
    var g := s[q..r];
    assert mid == s[p..q] + g + s[r..t];
    SpaceInSlice(s, p, q);
    SpaceInSlice(s, r, t);
    TrimWrapped(s[p..q], g, s[r..t]);
    TrimChars(g);
    var tr := Trim(g);
    forall k | 0 <= k < |tr| ensures IsNameChar(tr[k]) {
      var j :| 0 <= j < |g| && g[j] == tr[k];
    }
    assert mid[q - p] == g[0];
  }

  /** Whatever split of the line the regular expression finds, the line is a
      header and its name is the captured group, stripped and upper-cased. */
  lemma {:induction false} HeaderNameIsGroup(s: string, p: int, q: int, r: int, t: int)
    requires HeaderSplit(s, p, q, r, t)
    ensures IsHeader(s) && HeaderName(s) == Upper(Trim(s[q..r]))
  {
    SplitDashes(s, p, q, r, t);
    SplitMiddle(s, p, q, r, t);
  }

  /** The middle of a header seen as whitespace, captured group, whitespace,
      when the middle holds more than whitespace. */
  lemma {:induction false} SplitAroundName(s: string, a: int, e: int)
    requires 2 <= a < e <= |s| - 2 && DashIn(s, 0, a) && DashIn(s, e, |s|)
    requires AllNameChars(Trim(s[a..e])) && Trim(s[a..e]) != []
    ensures MatchesHeaderPattern(s)
  {
    var mid := s[a..e];
    var tr := Trim(mid);
    var i := StripStart(mid);
    var j := i + |tr|;
    TrimWraps(mid);
    assert tr == mid[i..j];
    forall k | a <= k < a + i ensures IsSpace(s[k]) { assert s[k] == mid[k - a]; }
    forall k | a + j <= k < e ensures IsSpace(s[k]) { assert s[k] == mid[k - a]; }
    assert s[a + i..a + j] == tr by {
      forall m | 0 <= m < j - i ensures s[a + i..a + j][m] == tr[m] {
        assert tr[m] == mid[i + m] == s[a + i + m];
      }
    }
    assert HeaderSplit(s, a, a + i, a + j, e);
  }

  /** The same when the middle is only whitespace: one of its spaces is the
      captured group. */
  lemma {:induction false} SplitAroundSpace(s: string, a: int, e: int, c: int)
    requires 2 <= a < e <= |s| - 2 && DashIn(s, 0, a) && DashIn(s, e, |s|)
    requires SpaceIn(s, a, e) && a <= c < e && s[c] == ' '
    ensures MatchesHeaderPattern(s)
  {
    assert s[c..c + 1] == [' '];
    assert HeaderSplit(s, a, c, c + 1, e);
  }

  /** A middle that strips to nothing still holds a space for the group. */
  lemma {:induction false} SplitBlankMiddle(s: string, a: int, e: int)
    requires 2 <= a < e <= |s| - 2 && DashIn(s, 0, a) && DashIn(s, e, |s|)
    requires Trim(s[a..e]) == [] && HasNameChar(s[a..e])
    ensures MatchesHeaderPattern(s)
  {
    var mid := s[a..e];
    TrimEmpty(mid);
    forall k | a <= k < e ensures IsSpace(s[k]) { assert s[k] == mid[k - a]; }
    var c :| 0 <= c < |mid| && IsNameChar(mid[c]);
    assert IsSpace(mid[c]) && s[a + c] == mid[c];
    SplitAroundSpace(s, a, e, a + c);
  }

  /** The facts the recogniser checks, named once. */
  lemma HeaderParts(s: string)
    requires IsHeader(s)
    ensures 2 <= HeadDashEnd(s) < TailDashStart(s) <= |s| - 2
    ensures DashIn(s, 0, HeadDashEnd(s)) && DashIn(s, TailDashStart(s), |s|)
    ensures AllNameChars(Trim(s[HeadDashEnd(s)..TailDashStart(s)]))
    ensures HasNameChar(s[HeadDashEnd(s)..TailDashStart(s)])
  {
  }

  /** A middle between two dash runs that the recogniser accepts has a split
      the regular expression accepts. */
  lemma {:induction false} MiddleHasSplit(s: string, a: int, e: int)
    requires 2 <= a < e <= |s| - 2 && DashIn(s, 0, a) && DashIn(s, e, |s|)
    requires AllNameChars(Trim(s[a..e])) && HasNameChar(s[a..e])
    ensures MatchesHeaderPattern(s)
  {
    if Trim(s[a..e]) != [] {
      SplitAroundName(s, a, e);
    } else {
      SplitBlankMiddle(s, a, e);
    }
  }

  /** A header found by the recogniser has a split the regular expression
      accepts. */
  lemma {:induction false} HeaderHasSplit(s: string)
    requires IsHeader(s)
    ensures MatchesHeaderPattern(s)
  {
    HeaderParts(s);
    MiddleHasSplit(s, HeadDashEnd(s), TailDashStart(s));
  }

  /** The hand-written recogniser accepts exactly the lines the regular
      expression matches. */
  lemma {:induction false} HeaderIffPattern(s: string)
    ensures IsHeader(s) <==> MatchesHeaderPattern(s)
  {
    if MatchesHeaderPattern(s) {
      var p, q, r, t :| HeaderSplit(s, p, q, r, t);
      HeaderNameIsGroup(s, p, q, r, t);
    }
    if IsHeader(s) {
      HeaderHasSplit(s);
    }
  }

  // ---------------------------------------------------------------------
  // Lines and the parser's state

  /** What one raw line is to the parser once it is stripped. */
  datatype Line = Skip | Header(name: string) | Content(text: string)

  /** A line that may be stored in a block: stripped, not empty, not a
      comment and not a header. */
  predicate StoredLine(t: string) {
    t != [] && t[0] != '#' && Trim(t) == t && !IsHeader(t)
  }

  /** A name a header can open: capital letters and spaces, nothing to strip. */
  predicate BlockName(n: string) {
    AllNameChars(n) && Trimmed(n)
  }

  function Classify(raw: string): Line {
    var line := Trim(raw);
    if line == [] || line[0] == '#' then Skip
    else if IsHeader(line) then Header(HeaderName(line))
    else Content(line)
  }

  /** A stripped line that is empty or starts with '#' is skipped; a header
      opens a block with a well-formed name; anything else is content, kept
      stripped. */
  lemma ClassifyMeaning(raw: string)
    ensures Classify(raw).Skip? <==> Trim(raw) == [] || Trim(raw)[0] == '#'
    ensures Classify(raw).Header? ==> IsHeader(Trim(raw)) && BlockName(Classify(raw).name)
    ensures Classify(raw).Content? ==> Classify(raw).text == Trim(raw) && StoredLine(Classify(raw).text)
  {
    TrimIdempotent(raw);
  }

  function ClassifyAll(lines: seq<string>): (ks: seq<Line>)
    ensures |ks| == |lines|
    ensures forall i :: 0 <= i < |lines| ==> ks[i] == Classify(lines[i])
  {
    seq(|lines|, i requires 0 <= i < |lines| => Classify(lines[i]))
  }

  /** The parsed document: Python's insertion-ordered dict, as the order in
      which block names were first opened and the rows of each block. */
  datatype Doc = Doc(order: seq<string>, rows: map<string, seq<string>>)

  ghost predicate ValidDoc(d: Doc) {
    && (forall i, j :: 0 <= i < j < |d.order| ==> d.order[i] != d.order[j])
    && (forall n :: n in d.rows <==> n in d.order)
  }

  /** The parser's loop state: the blocks so far and the block now open
      (None before the first header). */
  datatype ParseState = ParseState(doc: Doc, current: Option<string>)

  /** Opening a block: a new name is added at the end of the order; the rows
      of the block, new or not, start empty. */
  function OpenBlock(d: Doc, name: string): (r: Doc)
    ensures r.rows.Keys == d.rows.Keys + {name} && r.rows[name] == []
    ensures forall n :: n in d.rows && n != name ==> r.rows[n] == d.rows[n]
    ensures ValidDoc(d) ==> ValidDoc(r)
  {
    Doc(if name in d.rows then d.order else d.order + [name], d.rows[name := []])
  }

  /** One turn of the loop over the file's lines. */
  function Step(st: ParseState, k: Line): (r: ParseState)
    requires st.current.Some? ==> st.current.value in st.doc.rows
    ensures r.current.Some? ==> r.current.value in r.doc.rows
    ensures ValidDoc(st.doc) ==> ValidDoc(r.doc)
  {
    match k
    case Skip => st
    case Header(name) => ParseState(OpenBlock(st.doc, name), Some(name))
    case Content(text) =>
      if st.current.Some? && st.current.value != "" then
        var b := st.current.value;
        ParseState(Doc(st.doc.order, st.doc.rows[b := st.doc.rows[b] + [text]]), st.current)
      else st
  }

  /** The state after the loop has consumed the classified lines `ks`: a
      valid document whose open block, if any, is one of its blocks. */
  function Parse(ks: seq<Line>): (st: ParseState)
    ensures ValidDoc(st.doc)
    ensures st.current.Some? ==> st.current.value in st.doc.rows
    decreases |ks|
  {
    if ks == [] then ParseState(Doc([], map[]), None)
    else Step(Parse(ks[..|ks| - 1]), ks[|ks| - 1])
  }

  /** Every block is named by a header of `ks` and every row is the text of
      a content line of `ks`. */
  lemma {:induction false} ParseDrawsOnLines(ks: seq<Line>)
    ensures forall n :: n in Parse(ks).doc.rows ==> Header(n) in ks
    ensures forall n, j :: n in Parse(ks).doc.rows && 0 <= j < |Parse(ks).doc.rows[n]| ==>
              Content(Parse(ks).doc.rows[n][j]) in ks
    decreases |ks|
  {
    if ks != [] {
      var pre := ks[..|ks| - 1];
      ParseDrawsOnLines(pre);
      assert ks == pre + [ks[|ks| - 1]];
    }
  }

  /** The blocks of a file. */
  function ParseLines(lines: seq<string>): ParseState {
    Parse(ClassifyAll(lines))
  }

  /** Every block name is made of capital letters and spaces, and every row
      is a stripped, non-empty, non-comment, non-header line. */
  lemma {:induction false} ParsedLinesWellFormed(lines: seq<string>)
    ensures forall n :: n in ParseLines(lines).doc.rows ==> BlockName(n)
    ensures forall n, j :: n in ParseLines(lines).doc.rows && 0 <= j < |ParseLines(lines).doc.rows[n]| ==>
              StoredLine(ParseLines(lines).doc.rows[n][j])
  {
    var ks := ClassifyAll(lines);
    var d := Parse(ks).doc;
    ParseDrawsOnLines(ks);
    forall n | n in d.rows ensures BlockName(n) {
      var i :| 0 <= i < |ks| && ks[i] == Header(n);
      ClassifyMeaning(lines[i]);
    }
    forall n, j | n in d.rows && 0 <= j < |d.rows[n]| ensures StoredLine(d.rows[n][j]) {
      var i :| 0 <= i < |ks| && ks[i] == Content(d.rows[n][j]);
      ClassifyMeaning(lines[i]);
    }
  }

  /** Reading one more line is one more turn of the loop. */
  lemma ParseLinesSnoc(lines: seq<string>, k: int)
    requires 0 <= k < |lines|
    ensures Parse(ClassifyAll(lines[..k + 1])) == Step(Parse(ClassifyAll(lines[..k])), Classify(lines[k]))
  {
    var ks := ClassifyAll(lines[..k + 1]);
    assert ks[..k] == ClassifyAll(lines[..k]);
  }

  /** parse_ev5_blocks on the already-decoded lines of a file. */
  method ParseEv5Blocks(lines: seq<string>) returns (blocks: Doc)
    ensures blocks == ParseLines(lines).doc
    ensures ValidDoc(blocks)
  {
    var order: seq<string> := [];
    var rows: map<string, seq<string>> := map[];
    var current: Option<string> := None;
    for k := 0 to |lines|
      invariant Parse(ClassifyAll(lines[..k])) == ParseState(Doc(order, rows), current)
    {
      ParseLinesSnoc(lines, k);
      var line := Trim(lines[k]);
      if line == [] || line[0] == '#' {
        continue;
      }
      if IsHeader(line) {
        var name := HeaderName(line);
        if name !in rows {
          order := order + [name];
        }
        rows := rows[name := []];
        current := Some(name);
        continue;
      }
      if current.Some? && current.value != "" {
        rows := rows[current.value := rows[current.value] + [line]];
      }
    }
    assert lines[..|lines|] == lines;
    blocks := Doc(order, rows);
  }

  // ---------------------------------------------------------------------
  // What the parse means

  /** Index of the last header, -1 when there is none. */
  function LastHeaderIndex(ks: seq<Line>): (m: int)
    ensures -1 <= m < |ks|
    ensures m >= 0 ==> ks[m].Header?
    ensures forall i :: m < i < |ks| ==> !ks[i].Header?
    decreases |ks|
  {
    if ks == [] then -1
    else if ks[|ks| - 1].Header? then |ks| - 1
    else LastHeaderIndex(ks[..|ks| - 1])
  }

  /** The open block is the one named by the most recent header; before any
      header there is none. */
  lemma {:induction false} CurrentIsLastHeader(ks: seq<Line>)
    ensures var m := LastHeaderIndex(ks);
            Parse(ks).current == if m < 0 then None else Some(ks[m].name)
    decreases |ks|
  {
    if ks != [] {
      var pre := ks[..|ks| - 1];
      CurrentIsLastHeader(pre);
      if !ks[|ks| - 1].Header? {
        var m := LastHeaderIndex(pre);
        assert m >= 0 ==> pre[m] == ks[m];
      }
    }
  }

  /** A block exists exactly when some header names it. */
  lemma {:induction false} BlockExistsIffOpened(ks: seq<Line>, name: string)
    ensures name in Parse(ks).doc.rows <==> Header(name) in ks
    decreases |ks|
  {
    if ks != [] {
      var pre := ks[..|ks| - 1];
      BlockExistsIffOpened(pre, name);
      assert ks == pre + [ks[|ks| - 1]];
    }
  }

  /** The position of the first header of `ks` that opens block `name`. */
  function FirstOpening(ks: seq<Line>, name: string): (i: int)
    requires Header(name) in ks
    ensures 0 <= i < |ks| && ks[i] == Header(name) && Header(name) !in ks[..i]
    decreases |ks|
  {
    if ks[0] == Header(name) then 0
    else
      var i := 1 + FirstOpening(ks[1..], name);
      assert ks[..i] == [ks[0]] + ks[1..][..i - 1];
      i
  }

  /** A header of `name` with none before it is the first opening. */
  lemma FirstOpeningUnique(ks: seq<Line>, name: string, i: int)
    requires 0 <= i < |ks| && ks[i] == Header(name) && Header(name) !in ks[..i]
    ensures FirstOpening(ks, name) == i
  {
  }

  /** Reading more lines does not move a block's first opening. */
  lemma FirstOpeningKept(ks: seq<Line>, n: int, name: string)
    requires 0 <= n <= |ks| && Header(name) in ks[..n]
    ensures Header(name) in ks && FirstOpening(ks, name) == FirstOpening(ks[..n], name)
  {
    var f := FirstOpening(ks[..n], name);
    assert ks[f] == ks[..n][f];
    assert ks[..f] == ks[..n][..f];
    FirstOpeningUnique(ks, name, f);
  }

  /** One more line either leaves the block order alone or appends a block
      that no earlier header opened. */
  lemma OrderStep(ks: seq<Line>)
    requires ks != []
    ensures var pre := ks[..|ks| - 1];
            || Parse(ks).doc.order == Parse(pre).doc.order
            || (&& ks[|ks| - 1].Header? && Header(ks[|ks| - 1].name) !in pre
                && Parse(ks).doc.order == Parse(pre).doc.order + [ks[|ks| - 1].name])
  {
    var pre := ks[..|ks| - 1];
    if ks[|ks| - 1].Header? {
      BlockExistsIffOpened(pre, ks[|ks| - 1].name);
    }
  }

  /** Block order as first openings: order[i] is opened for the first time
      before order[j] whenever i < j. */
  ghost predicate OrderedByOpening(ks: seq<Line>, order: seq<string>) {
    forall i, j :: 0 <= i < j < |order| ==>
      && Header(order[i]) in ks && Header(order[j]) in ks
      && FirstOpening(ks, order[i]) < FirstOpening(ks, order[j])
  }

  /** The blocks are listed in the order in which a header first opened
      each of them: re-opening a block keeps its place, as a dict keeps the
      place of a key that is assigned again. */
  lemma {:induction false} OrderIsFirstOpening(ks: seq<Line>)
    ensures forall n :: n in Parse(ks).doc.order <==> Header(n) in ks
    ensures OrderedByOpening(ks, Parse(ks).doc.order)
    decreases |ks|
  {
    var order := Parse(ks).doc.order;
    forall n ensures n in order <==> Header(n) in ks {
      BlockExistsIffOpened(ks, n);
    }
    if ks != [] {
      var m := |ks| - 1;
      var pre := ks[..m];
      var po := Parse(pre).doc.order;
      OrderIsFirstOpening(pre);
      OrderStep(ks);
      OpeningOrderGrows(ks, po, order);
    }
  }

  /** The step of OrderIsFirstOpening: the order of the blocks opened before
      the last line stays ordered, and a block the last line opens comes
      after all of them. */
  lemma OpeningOrderGrows(ks: seq<Line>, po: seq<string>, order: seq<string>)
    requires ks != []
    requires forall n :: n in po ==> Header(n) in ks[..|ks| - 1]
    requires OrderedByOpening(ks[..|ks| - 1], po)
    requires || order == po
             || (&& ks[|ks| - 1].Header? && Header(ks[|ks| - 1].name) !in ks[..|ks| - 1]
                 && order == po + [ks[|ks| - 1].name])
    ensures OrderedByOpening(ks, order)
  {
    var m := |ks| - 1;
    var pre := ks[..m];
    forall x | x in po ensures Header(x) in ks && FirstOpening(ks, x) == FirstOpening(pre, x) < m {
      FirstOpeningKept(ks, m, x);
    }
    if order != po {
      FirstOpeningUnique(ks, ks[m].name, m);
    }
    forall i, j | 0 <= i < j < |order|
      ensures Header(order[i]) in ks && Header(order[j]) in ks
      ensures FirstOpening(ks, order[i]) < FirstOpening(ks, order[j])
    {
      assert order[i] == po[i];
      if j < |po| {
        assert order[j] == po[j];
      }
    }
  }

  /** Lines before the first header are dropped: without a header there is
      no block at all and no open block. */
  lemma {:induction false} NoHeaderNoBlocks(ks: seq<Line>)
    requires forall i :: 0 <= i < |ks| ==> !ks[i].Header?
    ensures Parse(ks) == ParseState(Doc([], map[]), None)
    decreases |ks|
  {
    if ks != [] {
      NoHeaderNoBlocks(ks[..|ks| - 1]);
    }
  }

  /** The text of the content lines among `ks`, in order. */
  function ContentLines(ks: seq<Line>): seq<string>
    decreases |ks|
  {
    if ks == [] then []
    else
      var last := ks[|ks| - 1];
      ContentLines(ks[..|ks| - 1]) + (if last.Content? then [last.text] else [])
  }

  /** Line k is the last header that opens `name`. */
  ghost predicate LastOpening(ks: seq<Line>, name: string, k: int) {
    && 0 <= k < |ks|
    && ks[k] == Header(name)
    && forall i :: k < i < |ks| ==> ks[i] != Header(name)
  }

  /** Line e is the first header after line k, or the end of the file. */
  ghost predicate SegmentEnd(ks: seq<Line>, k: int, e: int) {
    && 0 <= k < e <= |ks|
    && (e < |ks| ==> ks[e].Header?)
    && forall i :: k < i < e ==> !ks[i].Header?
  }

  /** A line that neither opens `name` nor is content for it leaves the
      block's rows alone. */
  lemma {:induction false} StepKeeps(st: ParseState, l: Line, name: string)
    requires st.current.Some? ==> st.current.value in st.doc.rows
    requires name in st.doc.rows && l != Header(name)
    requires l.Content? ==> st.current != Some(name)
    ensures name in Step(st, l).doc.rows && Step(st, l).doc.rows[name] == st.doc.rows[name]
  {
  }

  /** A line that is not a header, read while `name` is open. */
  lemma {:induction false} StepAppends(st: ParseState, l: Line, name: string)
    requires st.current == Some(name) && name in st.doc.rows && !l.Header?
    ensures name in Step(st, l).doc.rows
    ensures Step(st, l).doc.rows[name] ==
            st.doc.rows[name] + (if l.Content? && name != "" then [l.text] else [])
  {
  }

  lemma {:induction false} ContentLinesSnoc(xs: seq<Line>, l: Line)
    ensures ContentLines(xs + [l]) == ContentLines(xs) + (if l.Content? then [l.text] else [])
  {
    assert (xs + [l])[..|xs|] == xs;
  }

  /** The rows of a block are the content lines between the last header that
      opens it and the next header: content goes to the most recently opened
      block, and opening a name again discards what it held. A block whose
      name is empty keeps no rows. */
  lemma {:induction false} BlockRowsAreSegment(ks: seq<Line>, name: string, k: int, e: int)
    requires LastOpening(ks, name, k) && SegmentEnd(ks, k, e)
    ensures name in Parse(ks).doc.rows
    ensures Parse(ks).doc.rows[name] == if name == "" then [] else ContentLines(ks[k + 1..e])
    decreases |ks|, 1
  {
    if k == |ks| - 1 {
      var st := Parse(ks[..k]);
      assert Parse(ks) == Step(st, Header(name));
      assert Parse(ks).doc.rows[name] == [];
      assert ks[k + 1..e] == [];
      assert ContentLines([]) == [];
    } else if e < |ks| {
      ClosedSegment(ks, name, k, e);
    } else {
      OpenSegment(ks, name, k);
      assert ks[k + 1..e] == ks[k + 1..];
    }
  }

  /** Dropping a line after a closed segment keeps the segment. */
  lemma DropLastKeepsSegment(ks: seq<Line>, name: string, k: int, e: int)
    requires LastOpening(ks, name, k) && SegmentEnd(ks, k, e)
    requires k < |ks| - 1 && e < |ks|
    ensures LastOpening(ks[..|ks| - 1], name, k) && SegmentEnd(ks[..|ks| - 1], k, e)
  {
    var pre := ks[..|ks| - 1];
    forall i | k < i < |pre| ensures pre[i] != Header(name) { assert pre[i] == ks[i]; }
    forall i | k < i < e ensures !pre[i].Header? { assert pre[i] == ks[i]; }
    if e < |pre| { assert pre[e] == ks[e]; }
  }

  /** Once a later header has closed the segment, `name` is not the open block. */
  lemma {:induction false} ClosedNotCurrent(ks: seq<Line>, name: string, k: int, e: int)
    requires LastOpening(ks, name, k) && SegmentEnd(ks, k, e) && e < |ks|
    ensures Parse(ks).current != Some(name)
  {
    CurrentIsLastHeader(ks);
    var m := LastHeaderIndex(ks);
    assert m >= e > k;
  }

  /** The last line comes after the block's segment was closed by a header. */
  lemma {:induction false} ClosedSegment(ks: seq<Line>, name: string, k: int, e: int)
    requires LastOpening(ks, name, k) && SegmentEnd(ks, k, e)
    requires k < |ks| - 1 && e < |ks|
    ensures name in Parse(ks).doc.rows
    ensures Parse(ks).doc.rows[name] == if name == "" then [] else ContentLines(ks[k + 1..e])
    decreases |ks|, 0
  {
    var n := |ks| - 1;
    var pre := ks[..n];
    var l := ks[n];
    var st := Parse(pre);
    assert Parse(ks) == Step(st, l);
    DropLastKeepsSegment(ks, name, k, e);
    BlockRowsAreSegment(pre, name, k, e);
    assert ks[k + 1..e] == pre[k + 1..e] by {
      assert forall i :: k + 1 <= i < e ==> ks[i] == pre[i];
    }
    if e < n {
      ClosedNotCurrent(pre, name, k, e);
    }
    StepKeeps(st, l, name);
  }

  /** Dropping the last line of an open segment leaves the segment open,
      with `name` the open block. */
  lemma DropLastKeepsOpen(ks: seq<Line>, name: string, k: int)
    requires LastOpening(ks, name, k) && SegmentEnd(ks, k, |ks|)
    requires k < |ks| - 1
    ensures LastOpening(ks[..|ks| - 1], name, k) && SegmentEnd(ks[..|ks| - 1], k, |ks| - 1)
    ensures Parse(ks[..|ks| - 1]).current == Some(name)
  {
    var n := |ks| - 1;
    var pre := ks[..n];
    forall i | k < i < n ensures pre[i] != Header(name) && !pre[i].Header? { assert pre[i] == ks[i]; }
    CurrentIsLastHeader(pre);
    assert LastHeaderIndex(pre) == k;
  }

  /** The last line belongs to the block's segment, which is still open. */
  lemma {:induction false} OpenSegment(ks: seq<Line>, name: string, k: int)
    requires LastOpening(ks, name, k) && SegmentEnd(ks, k, |ks|)
    requires k < |ks| - 1
    ensures name in Parse(ks).doc.rows
    ensures Parse(ks).doc.rows[name] == if name == "" then [] else ContentLines(ks[k + 1..])
    decreases |ks|, 0
  {
    var n := |ks| - 1;
    var pre := ks[..n];
    var l := ks[n];
    var st := Parse(pre);
    assert Parse(ks) == Step(st, l);
    DropLastKeepsOpen(ks, name, k);
    BlockRowsAreSegment(pre, name, k, n);
    StepAppends(st, l, name);
    assert ks[k + 1..] == pre[k + 1..n] + [l];
    ContentLinesSnoc(pre[k + 1..n], l);
  }

  // ---------------------------------------------------------------------
  // Example header lines

  /** A stripped name of capital letters is its own header name. */
  lemma CapitalNameIsItself(g: string)
    requires g != [] && forall i :: 0 <= i < |g| ==> 'A' <= g[i] <= 'Z'
    ensures Upper(Trim(g)) == g
  {
    assert Wraps(g, g, 0);
    TrimUnique(g, g, 0);
    UpperResult(g);
  }

  /** `s` is `dashes` dashes, a space, `name`, a space and `dashes` dashes. */
  ghost predicate Framed(s: string, dashes: nat, name: string) {
    && |s| == 2 * dashes + 2 + |name|
    && DashIn(s, 0, dashes) && DashIn(s, |s| - dashes, |s|)
    && s[dashes] == ' ' && s[|s| - 1 - dashes] == ' '
    && s[dashes + 1..|s| - 1 - dashes] == name
  }

  /** A captured group of capital letters is the header's name as it is. */
  lemma CapitalGroupIsName(s: string, p: int, q: int, r: int, t: int, name: string)
    requires HeaderSplit(s, p, q, r, t) && s[q..r] == name
    requires forall i :: 0 <= i < |name| ==> 'A' <= name[i] <= 'Z'
    ensures IsHeader(s) && HeaderName(s) == name
  {
    HeaderNameIsGroup(s, p, q, r, t);
    CapitalNameIsItself(name);
  }

  lemma FramedSplit(s: string, dashes: nat, name: string)
    requires dashes >= 2 && Framed(s, dashes, name)
    requires name != [] && forall i :: 0 <= i < |name| ==> 'A' <= name[i] <= 'Z'
    ensures HeaderSplit(s, dashes, dashes + 1, |s| - 1 - dashes, |s| - dashes)
  {
    assert IsSpace(s[dashes]) && IsSpace(s[|s| - 1 - dashes]);
  }

  /** A name of capital letters between spaces and at least two dashes on
      each side is a header of that name. */
  lemma FramedHeader(s: string, dashes: nat, name: string)
    requires dashes >= 2 && Framed(s, dashes, name)
    requires name != [] && forall i :: 0 <= i < |name| ==> 'A' <= name[i] <= 'Z'
    ensures IsHeader(s) && HeaderName(s) == name
  {
    FramedSplit(s, dashes, name);
    CapitalGroupIsName(s, dashes, dashes + 1, |s| - 1 - dashes, |s| - dashes, name);
  }

  lemma SafetyHeader(s: string)
    requires s == "--- SAFETY ---"
    ensures IsHeader(s) && HeaderName(s) == "SAFETY"
  {
    FramedHeader(s, 3, "SAFETY");
  }

  /** Two dashes on each side are enough. */
  lemma NotesHeader(s: string)
    requires s == "-- NOTES --"
    ensures IsHeader(s) && HeaderName(s) == "NOTES"
  {
    FramedHeader(s, 2, "NOTES");
  }

  /** One dash on each side is not a header: the line is content. */
  lemma SingleDashNotHeader(s: string)
    requires s == "- NOTES -"
    ensures !IsHeader(s) && Classify(s) == Content(s)
  {
    DashRunFromAt(s, 0, 1);
    assert Wraps(s, s, 0);
    TrimUnique(s, s, 0);
  }

  /** Lower-case names are not headers. */
  lemma LowerCaseNotHeader(s: string)
    requires s == "-- notes --"
    ensures !IsHeader(s)
  {
    DashRunFromAt(s, 0, 2);
    DashRunToAt(s, |s|, 9);
    var mid := s[2..9];
    assert mid == " notes ";
    assert Wraps(mid, "notes", 1);
    TrimUnique(mid, "notes", 1);
    assert !IsNameChar(Trim(mid)[0]);
  }
}
