/** The SQL statement splitter of the migration runner (tests/conftest.py, _split_sql_statements).

    The code is a character loop with four flags and a tag.  `FirstCut` is that machine as a
    function of one mode; `Pieces` are the raw segments between cuts and `Kept` the statements.
    `Split` is the loop itself. */
module SqlSplitter {

  /** str.isspace and str.isalnum.  The loop works for any two classes; the results below need
      only that SQL punctuation is in neither and that no blank is alphanumeric. */
  datatype Chars = Chars(space: char -> bool, alnum: char -> bool)

  predicate Punctuation(c: char) {
    c == '-' || c == '/' || c == '*' || c == '\'' || c == '$' || c == ';'
  }

  ghost predicate Sane(cs: Chars) {
    && (forall c :: Punctuation(c) ==> !cs.space(c) && !cs.alnum(c))
    && (forall c :: cs.alnum(c) ==> !cs.space(c))
    && !cs.space('_')
  }

  datatype Mode = Normal | Line | Block | Quote | Dollar(tag: string)

  /** sql.find("$", i), with the length for -1. */
  function FindDollar(sql: string, i: nat): (k: nat)
    requires i <= |sql|
    ensures i <= k <= |sql|
    ensures forall j :: i <= j < k ==> sql[j] != '$'
    ensures k < |sql| ==> sql[k] == '$'
    decreases |sql| - i
  {
    if i == |sql| || sql[i] == '$' then i else FindDollar(sql, i + 1)
  }

  /** The `$` at i opens a dollar quote whose tag ends at e. */
  predicate OpensTag(cs: Chars, sql: string, i: nat, e: nat)
    requires i < |sql|
  {
    e < |sql| && forall k :: i < k < e ==> cs.alnum(sql[k]) || sql[k] == '_'
  }

  predicate At(sql: string, i: nat, c: char) {
    i < |sql| && sql[i] == c
  }

  predicate AtText(sql: string, i: nat, t: string) {
    i + |t| <= |sql| && sql[i..i + |t|] == t
  }

  /** One iteration: the next position and the next mode. */
  function Advance(cs: Chars, sql: string, i: nat, m: Mode): (r: (nat, Mode))
    requires i < |sql| && TagOk(m)
    ensures i < r.0 <= |sql| && TagOk(r.1)
  {
    var c := sql[i];
    match m
    case Normal =>
      if c == '-' && At(sql, i + 1, '-') then (i + 1, Line)
      else if c == '/' && At(sql, i + 1, '*') then (i + 1, Block)
      else if c == '\'' then (i + 1, Quote)
      else if c == '$' && OpensTag(cs, sql, i, FindDollar(sql, i + 1)) then
        var e := FindDollar(sql, i + 1) + 1; (e, Dollar(sql[i..e]))
      else (i + 1, Normal)
    case Line => (i + 1, if c == '\n' then Normal else Line)
    case Block => if c == '*' && At(sql, i + 1, '/') then (i + 2, Normal) else (i + 1, Block)
    case Quote =>
      if c != '\'' then (i + 1, Quote) else if At(sql, i + 1, '\'') then (i + 2, Quote) else (i + 1, Normal)
    case Dollar(tag) =>
      if c == '$' && AtText(sql, i, tag) then (i + |tag|, Normal) else (i + 1, Dollar(tag))
  }

  predicate TagOk(m: Mode) {
    m.Dollar? ==> |m.tag| > 0
  }

  /** Position of the next semicolon read in normal mode, or the length of the script. */
  function FirstCut(cs: Chars, sql: string, i: nat, m: Mode): (k: nat)
    requires i <= |sql| && TagOk(m)
    ensures i <= k <= |sql|
    ensures k < |sql| ==> sql[k] == ';'
    decreases |sql| - i
  {
    if i == |sql| then i
    else if m == Normal && sql[i] == ';' then i
    else var (i', m') := Advance(cs, sql, i, m); FirstCut(cs, sql, i', m')
  }

  /** The raw segments, each with its semicolon, and the text after the last cut. */
  function Pieces(cs: Chars, sql: string, start: nat): seq<string>
    requires start <= |sql|
    decreases |sql| - start
  {
    var k := FirstCut(cs, sql, start, Normal);
    if k < |sql| then [sql[start..k + 1]] + Pieces(cs, sql, k + 1) else [sql[start..]]
  }

  function Lead(cs: Chars, s: string): (k: nat)
    ensures k <= |s|
  {
    if s == "" || !cs.space(s[0]) then 0 else 1 + Lead(cs, s[1..])
  }

  function Trail(cs: Chars, s: string): (k: nat)
    ensures k <= |s|
  {
    if s == "" || !cs.space(s[|s| - 1]) then |s| else Trail(cs, s[..|s| - 1])
  }

  lemma {:induction false} LeadIsBlank(cs: Chars, s: string)
    ensures var k := Lead(cs, s); (forall j :: 0 <= j < k ==> cs.space(s[j])) && (k < |s| ==> !cs.space(s[k]))
  {
    if s != "" && cs.space(s[0]) {
      LeadIsBlank(cs, s[1..]);
    }
  }

  lemma {:induction false} TrailIsBlank(cs: Chars, s: string)
    ensures var k := Trail(cs, s); (forall j :: k <= j < |s| ==> cs.space(s[j])) && (k > 0 ==> !cs.space(s[k - 1]))
  {
    if s != "" && cs.space(s[|s| - 1]) {
      TrailIsBlank(cs, s[..|s| - 1]);
    }
  }

  /** str.strip */
  function Strip(cs: Chars, s: string): string {
    var t := s[Lead(cs, s)..]; t[..Trail(cs, t)]
  }

  /** Blank segments and a lone semicolon are dropped. */
  function Keep(cs: Chars, p: string): seq<string> {
    var s := Strip(cs, p); if s != "" && s != ";" then [s] else []
  }

  function Kept(cs: Chars, ps: seq<string>): seq<string> {
    if ps == [] then [] else Keep(cs, ps[0]) + Kept(cs, ps[1..])
  }

  /** What the function returns. */
  function Statements(cs: Chars, sql: string): seq<string> {
    Kept(cs, Pieces(cs, sql, 0))
  }

  // ------------------------------------------------------------------
  // The loop
  // ------------------------------------------------------------------

  /** The four flags and the tag of the loop. */
  datatype Flags = Flags(quote: bool, dollar: bool, tag: string, line: bool, block: bool)

  function ModeOf(f: Flags): Mode {
    if f.line then Line else if f.block then Block else if f.quote then Quote
    else if f.dollar then Dollar(f.tag) else Normal
  }

  predicate AtMostOne(f: Flags) {
    && !(f.quote && (f.dollar || f.line || f.block)) && !(f.dollar && (f.line || f.block)) && !(f.line && f.block)
    && (f.dollar ==> |f.tag| > 0)
  }

  /** The body of the loop up to the cut: new position, new flags, the text appended to the current
      statement, and whether this is a statement separator. */
  method Iterate(cs: Chars, sql: string, i: nat, flags: Flags)
    returns (j: nat, f: Flags, text: string, cut: bool)
    requires i < |sql| && AtMostOne(flags)
    ensures i < j <= |sql| && AtMostOne(f) && text == sql[i..j]
    ensures cut <==> ModeOf(flags) == Normal && sql[i] == ';'
    ensures (j, ModeOf(f)) == Advance(cs, sql, i, ModeOf(flags))
    ensures cut ==> (j, ModeOf(f)) == (i + 1, Normal)
  {
    var n := |sql|;
    var ch := sql[i];
    f, text, cut := flags, [ch], false;

    if !f.quote && !f.dollar && !f.block && ch == '-' && i + 1 < n && sql[i + 1] == '-' {
      f := f.(line := true);
    }
    if f.line {
      if ch == '\n' {
        f := f.(line := false);
      }
      return i + 1, f, text, cut;
    }

    if !f.quote && !f.dollar && !f.line && ch == '/' && i + 1 < n && sql[i + 1] == '*' {
      f := f.(block := true);
    }
    if f.block {
      if ch == '*' && i + 1 < n && sql[i + 1] == '/' {
        return i + 2, f.(block := false), [ch, sql[i + 1]], cut;
      }
      return i + 1, f, text, cut;
    }

    if !f.dollar && ch == '\'' {
      if f.quote {
        if i + 1 < n && sql[i + 1] == '\'' {
          return i + 2, f, [ch, sql[i + 1]], cut;
        }
        f := f.(quote := false);
      } else {
        f := f.(quote := true);
      }
      return i + 1, f, text, cut;
    }

    if !f.quote && ch == '$' {
      if f.dollar {
        if i + |f.tag| <= n && sql[i..i + |f.tag|] == f.tag {
          return i + |f.tag|, f.(dollar := false, tag := ""), f.tag, cut;
        }
      } else {
        var end := FindDollar(sql, i + 1);
        if end < n && forall k :: i < k < end ==> cs.alnum(sql[k]) || sql[k] == '_' {
          var tag := sql[i..end + 1];
          return i + |tag|, f.(dollar := true, tag := tag), tag, cut;
        }
      }
    }

    return i + 1, f, text, !f.quote && !f.dollar && ch == ';';
  }

  lemma KeptConcat(cs: Chars, xs: seq<string>, ys: seq<string>)
    ensures Kept(cs, xs + ys) == Kept(cs, xs) + Kept(cs, ys)
  {
    if xs == [] {
      assert xs + ys == ys;
    } else {
      assert (xs + ys)[1..] == xs[1..] + ys;
      KeptConcat(cs, xs[1..], ys);
    }
  }

  lemma CutPiece(cs: Chars, sql: string, start: nat, i: nat)
    requires start <= i < |sql| && FirstCut(cs, sql, start, Normal) == i
    ensures Pieces(cs, sql, start) == [sql[start..i + 1]] + Pieces(cs, sql, i + 1)
  {
  }

  lemma LastPiece(cs: Chars, sql: string, start: nat)
    requires start <= |sql| && FirstCut(cs, sql, start, Normal) == |sql|
    ensures Pieces(cs, sql, start) == [sql[start..]]
  {
  }

  lemma PassOver(cs: Chars, sql: string, i: nat, m: Mode)
    requires i < |sql| && TagOk(m) && !(m == Normal && sql[i] == ';')
    ensures var (i', m') := Advance(cs, sql, i, m); FirstCut(cs, sql, i, m) == FirstCut(cs, sql, i', m')
  {
  }

  lemma AtCut(cs: Chars, sql: string, i: nat, m: Mode)
    requires i <= |sql| && TagOk(m) && (i == |sql| || (m == Normal && sql[i] == ';'))
    ensures FirstCut(cs, sql, i, m) == i
  {
  }

  lemma KeptOne(cs: Chars, p: string)
    ensures Kept(cs, [p]) == Keep(cs, p)
  {
    assert [p][1..] == [];
  }

  lemma KeepAtCut(cs: Chars, sql: string, start: nat, i: nat)
    requires start <= i < |sql| && FirstCut(cs, sql, start, Normal) == i
    ensures Kept(cs, Pieces(cs, sql, start)) == Keep(cs, sql[start..i + 1]) + Kept(cs, Pieces(cs, sql, i + 1))
  {
    hide FirstCut;
    CutPiece(cs, sql, start, i);
    KeptConcat(cs, [sql[start..i + 1]], Pieces(cs, sql, i + 1));
    KeptOne(cs, sql[start..i + 1]);
  }

  lemma KeepAtEnd(cs: Chars, sql: string, start: nat)
    requires start <= |sql| && FirstCut(cs, sql, start, Normal) == |sql|
    ensures Kept(cs, Pieces(cs, sql, start)) == Keep(cs, sql[start..])
  {
    hide FirstCut;
    LastPiece(cs, sql, start);
    KeptOne(cs, sql[start..]);
  }

  /** The loop invariant: the current statement began at `start`, and the statements so far are
      those before it. */
  ghost predicate Progress(cs: Chars, sql: string, start: nat, i: nat, m: Mode, statements: seq<string>) {
    && start <= i <= |sql| && TagOk(m)
    && FirstCut(cs, sql, start, Normal) == FirstCut(cs, sql, i, m)
    && statements + Kept(cs, Pieces(cs, sql, start)) == Statements(cs, sql)
  }

  lemma ProgressOver(cs: Chars, sql: string, start: nat, i: nat, m: Mode, statements: seq<string>)
    requires Progress(cs, sql, start, i, m, statements) && i < |sql| && !(m == Normal && sql[i] == ';')
    ensures var (i', m') := Advance(cs, sql, i, m); Progress(cs, sql, start, i', m', statements)
  {
    hide FirstCut;
    PassOver(cs, sql, i, m);
  }

  lemma ProgressCut(cs: Chars, sql: string, start: nat, i: nat, statements: seq<string>)
    requires Progress(cs, sql, start, i, Normal, statements) && i < |sql| && sql[i] == ';'
    ensures Progress(cs, sql, i + 1, i + 1, Normal, statements + Keep(cs, sql[start..i + 1]))
  {
    hide FirstCut;
    AtCut(cs, sql, i, Normal);
    KeepAtCut(cs, sql, start, i);
    var kept, rest := Keep(cs, sql[start..i + 1]), Kept(cs, Pieces(cs, sql, i + 1));
    assert statements + kept + rest == statements + (kept + rest);
  }

  lemma ProgressEnd(cs: Chars, sql: string, start: nat, m: Mode, statements: seq<string>)
    requires Progress(cs, sql, start, |sql|, m, statements)
    ensures statements + Keep(cs, sql[start..]) == Statements(cs, sql)
  {
    hide FirstCut;
    KeepAtEnd(cs, sql, start);
  }

  method Split(cs: Chars, sql: string) returns (statements: seq<string>)
    ensures statements == Statements(cs, sql)
  {
    hide FirstCut, Pieces, Kept, Keep, Advance;
    statements := [];
    var current, i, flags := "", 0, Flags(false, false, "", false, false);
    ghost var start := 0;
    while i < |sql|
      invariant start <= i <= |sql| && current == sql[start..i]
      invariant AtMostOne(flags) && Progress(cs, sql, start, i, ModeOf(flags), statements)
      decreases |sql| - i
    {
      var j, f, text, cut := Iterate(cs, sql, i, flags);
      current := current + text;
      assert current == sql[start..j];
      if cut {
        ProgressCut(cs, sql, start, i, statements);
        statements := statements + Keep(cs, current);
        current := "";
        start := j;
      } else {
        ProgressOver(cs, sql, start, i, ModeOf(flags), statements);
      }
      i, flags := j, f;
    }
    ProgressEnd(cs, sql, start, ModeOf(flags), statements);
    assert current == sql[start..];
    statements := statements + Keep(cs, current);
  }

  // ------------------------------------------------------------------
  // Partition
  // ------------------------------------------------------------------

  function Flatten(ps: seq<string>): string {
    if ps == [] then "" else ps[0] + Flatten(ps[1..])
  }

  /** The raw segments concatenate back to the script. */
  lemma {:induction false} PiecesPartition(cs: Chars, sql: string, start: nat)
    requires start <= |sql|
    ensures Flatten(Pieces(cs, sql, start)) == sql[start..]
    decreases |sql| - start
  {
    var k := FirstCut(cs, sql, start, Normal);
    if k < |sql| {
      PiecesPartition(cs, sql, k + 1);
      var rest := Pieces(cs, sql, k + 1);
      assert ([sql[start..k + 1]] + rest)[1..] == rest;
      assert sql[start..k + 1] + sql[k + 1..] == sql[start..];
    } else {
      assert [sql[start..]][1..] == [];
    }
  }

  // ------------------------------------------------------------------
  // Splitting a statement again
  // ------------------------------------------------------------------

  predicate Blank(cs: Chars, sql: string, b: nat) {
    forall j :: b <= j < |sql| ==> cs.space(sql[j])
  }

  ghost predicate TagPlain(cs: Chars, m: Mode) {
    m.Dollar? ==> |m.tag| > 0 && forall k :: 0 <= k < |m.tag| ==> !cs.space(m.tag[k])
  }

  /** The slice sql[a..b] is all that matters from i on: only blanks follow it, or i is before a
      semicolon that ends it. */
  predicate Closed(cs: Chars, sql: string, b: nat, i: nat)
    requires b <= |sql|
  {
    Blank(cs, sql, b) || (i < b - 1 && sql[b - 1] == ';')
  }

  lemma SliceOfSlice(sql: string, a: nat, b: nat, x: nat, y: nat)
    requires a <= x <= y <= b <= |sql|
    ensures sql[a..b][x - a..y - a] == sql[x..y]
  {
    assert forall k :: 0 <= k < y - x ==> sql[a..b][x - a..y - a][k] == sql[x..y][k];
  }

  lemma LookaheadIsLocal(cs: Chars, sql: string, a: nat, b: nat, i: nat, c: char)
    requires a <= i < b <= |sql| && Closed(cs, sql, b, i) && !cs.space(c)
    ensures At(sql, i + 1, c) <==> At(sql[a..b], i + 1 - a, c)
  {
  }

  lemma OpeningIsLocal(cs: Chars, sql: string, a: nat, b: nat, i: nat)
    requires Sane(cs) && a <= i < b <= |sql| && Closed(cs, sql, b, i)
    ensures var e := FindDollar(sql, i + 1); var e' := FindDollar(sql[a..b], i + 1 - a);
            && (OpensTag(cs, sql, i, e) <==> OpensTag(cs, sql[a..b], i - a, e'))
            && (OpensTag(cs, sql, i, e) ==> e < b && e' == e - a)
  {
    var sub := sql[a..b];
    var e, e' := FindDollar(sql, i + 1), FindDollar(sub, i + 1 - a);
    if e < b {
      assert sub[e - a] == '$';
      assert e' <= e - a;
      assert sql[e' + a] == sub[e'];
      assert e' == e - a;
      assert forall k :: i < k < e ==> sql[k] == sub[k - a];
      if OpensTag(cs, sub, i - a, e') {
        forall k | i < k < e ensures cs.alnum(sql[k]) || sql[k] == '_' { assert sub[k - a] == sql[k]; }
      }
    } else {
      assert forall k :: i + 1 - a <= k < |sub| ==> sub[k] == sql[k + a];
      if e < |sql| {
        assert Punctuation(sql[e]) && !Blank(cs, sql, b);
        assert Punctuation(sql[b - 1]) && i < b - 1 < e;
      }
    }
  }

  lemma ClosingIsLocal(cs: Chars, sql: string, a: nat, b: nat, i: nat, tag: string)
    requires a <= i < b <= |sql| && TagPlain(cs, Dollar(tag))
    requires Blank(cs, sql, b) || !AtText(sql, i, tag) || i + |tag| <= b
    ensures AtText(sql, i, tag) <==> AtText(sql[a..b], i - a, tag)
  {
    var sub := sql[a..b];
    if i + |tag| <= b {
      SliceOfSlice(sql, a, b, i, i + |tag|);
    } else {
      forall t | t == sql[i..] && |tag| <= |t| ensures t[..|tag|] != tag {
        assert t[b - i] == sql[b];
      }
      assert i + |tag| <= |sql| ==> sql[i..i + |tag|] == sql[i..][..|tag|];
    }
  }

  /** One iteration reads the same inside the slice as in the whole script. */
  lemma AdvanceIsLocal(cs: Chars, sql: string, a: nat, b: nat, i: nat, m: Mode)
    requires Sane(cs) && a <= i < b <= |sql| && TagPlain(cs, m) && Closed(cs, sql, b, i)
    requires Blank(cs, sql, b) || Advance(cs, sql, i, m).0 <= b
    ensures var (i', m') := Advance(cs, sql, i, m);
            i' <= b && Advance(cs, sql[a..b], i - a, m) == (i' - a, m') && TagPlain(cs, m')
  {
    hide FindDollar;
    assert Punctuation('-') && Punctuation('*') && Punctuation('/') && Punctuation('\'') && Punctuation('$');
    match m
    case Normal =>
      LookaheadIsLocal(cs, sql, a, b, i, '-');
      LookaheadIsLocal(cs, sql, a, b, i, '*');
      OpeningIsLocal(cs, sql, a, b, i);
      var e := FindDollar(sql, i + 1);
      if OpensTag(cs, sql, i, e) {
        SliceOfSlice(sql, a, b, i, e + 1);
      }
    case Line =>
    case Block => LookaheadIsLocal(cs, sql, a, b, i, '/');
    case Quote => LookaheadIsLocal(cs, sql, a, b, i, '\'');
    case Dollar(tag) =>
      if sql[i] == '$' { ClosingIsLocal(cs, sql, a, b, i, tag); }
  }

  lemma {:induction false} CutIsLocal(cs: Chars, sql: string, a: nat, b: nat, i: nat, m: Mode)
    requires Sane(cs) && a <= i <= b <= |sql| && TagPlain(cs, m)
    requires var k := FirstCut(cs, sql, i, m); (k == |sql| && Blank(cs, sql, b)) || (k == b - 1 && k < |sql|)
    ensures FirstCut(cs, sql[a..b], i - a, m) ==
            if FirstCut(cs, sql, i, m) == |sql| then b - a else b - 1 - a
    decreases |sql| - i
  {
    hide FirstCut;
    if i < b && !(m == Normal && sql[i] == ';') {
      PassOver(cs, sql, i, m);
      var (i', m') := Advance(cs, sql, i, m);
      assert i' <= FirstCut(cs, sql, i', m') == FirstCut(cs, sql, i, m);
      assert Closed(cs, sql, b, i);
      AdvanceIsLocal(cs, sql, a, b, i, m);
      PassOver(cs, sql[a..b], i - a, m);
      CutIsLocal(cs, sql, a, b, i', m');
    } else {
      if m == Normal && i < |sql| && sql[i] == ';' { AtCut(cs, sql, i, m); }
      if i == |sql| { AtCut(cs, sql, i, m); }
      AtCut(cs, sql[a..b], i - a, m);
    }
  }

  /** Leading blanks are read in normal mode and change nothing. */
  lemma {:induction false} SkipBlanks(cs: Chars, sql: string, start: nat, a: nat)
    requires Sane(cs) && start <= a <= |sql| && forall j :: start <= j < a ==> cs.space(sql[j])
    ensures FirstCut(cs, sql, start, Normal) == FirstCut(cs, sql, a, Normal)
    decreases a - start
  {
    if start < a {
      assert cs.space(sql[start]) && !Punctuation(sql[start]);
      SkipBlanks(cs, sql, start + 1, a);
    }
  }

  lemma StripIsSlice(cs: Chars, s: string)
    ensures var a := Lead(cs, s); var b := a + Trail(cs, s[a..]);
            a <= b <= |s| && Strip(cs, s) == s[a..b] && Blank(cs, s, b)
  {
    var a := Lead(cs, s);
    var t := s[a..];
    var b := a + Trail(cs, t);
    TrailIsBlank(cs, t);
    forall j | b <= j < |s| ensures cs.space(s[j]) { assert s[j] == t[j - a]; }
  }

  /** Blank at neither end. */
  predicate Tight(cs: Chars, s: string) {
    s != "" && !cs.space(s[0]) && !cs.space(s[|s| - 1])
  }

  lemma StripIsTight(cs: Chars, s: string)
    requires Strip(cs, s) != ""
    ensures Tight(cs, Strip(cs, s))
  {
    var a := Lead(cs, s);
    var t := s[a..];
    LeadIsBlank(cs, s);
    TrailIsBlank(cs, t);
    assert Strip(cs, s)[0] == s[a];
  }

  lemma StripTight(cs: Chars, s: string)
    requires Tight(cs, s)
    ensures Strip(cs, s) == s
  {
    assert Lead(cs, s) == 0 && s[0..] == s && Trail(cs, s) == |s|;
  }

  /** A statement that is read to its end, or to a final semicolon, splits into itself. */
  lemma OneStatement(cs: Chars, st: string)
    requires Tight(cs, st) && st != ";"
    requires var k := FirstCut(cs, st, 0, Normal); k == |st| || k == |st| - 1
    ensures Statements(cs, st) == [st]
  {
    hide FirstCut;
    StripTight(cs, st);
    if FirstCut(cs, st, 0, Normal) == |st| {
      KeepAtEnd(cs, st, 0);
      assert st[0..] == st;
    } else {
      KeepAtCut(cs, st, 0, |st| - 1);
      KeepAtEnd(cs, st, |st|);
      assert st[0..|st|] == st && st[|st|..] == "";
      assert Keep(cs, "") == [];
    }
  }

  /** The segment sql[start..end], cut at its last character or running to the end of the script. */
  predicate Segment(cs: Chars, sql: string, start: nat, end: nat)
    requires start <= end <= |sql|
  {
    var k := FirstCut(cs, sql, start, Normal); (k == |sql| == end) || (k == end - 1 && k < |sql|)
  }

  /** Read on its own, the stripped segment has the same cut. */
  lemma StrippedSegment(cs: Chars, sql: string, start: nat, end: nat, a: nat, b: nat)
    requires Sane(cs) && start <= a < b <= end <= |sql| && Segment(cs, sql, start, end)
    requires forall j :: start <= j < a || b <= j < end ==> cs.space(sql[j])
    ensures var k := FirstCut(cs, sql[a..b], 0, Normal); k == b - a || k == b - a - 1
  {
    hide FirstCut;
    SkipBlanks(cs, sql, start, a);
    assert Punctuation(';');
    CutIsLocal(cs, sql, a, b, a, Normal);
  }

  lemma StripBounds(cs: Chars, sql: string, start: nat, end: nat) returns (a: nat, b: nat)
    requires start <= end <= |sql| && Strip(cs, sql[start..end]) != ""
    ensures start <= a < b <= end && Strip(cs, sql[start..end]) == sql[a..b]
    ensures forall j :: start <= j < a || b <= j < end ==> cs.space(sql[j])
  {
    var p := sql[start..end];
    StripIsSlice(cs, p);
    LeadIsBlank(cs, p);
    a := start + Lead(cs, p);
    b := a + Trail(cs, p[Lead(cs, p)..]);
    SliceOfSlice(sql, start, end, a, b);
    forall j | start <= j < a || b <= j < end ensures cs.space(sql[j]) {
      assert sql[j] == p[j - start];
    }
  }

  lemma SegmentResplits(cs: Chars, sql: string, start: nat, end: nat, s: string)
    requires Sane(cs) && start <= end <= |sql| && Segment(cs, sql, start, end)
    requires s == Strip(cs, sql[start..end]) && s != "" && s != ";"
    ensures Statements(cs, s) == [s]
  {
    hide FirstCut;
    var a, b := StripBounds(cs, sql, start, end);
    StrippedSegment(cs, sql, start, end, a, b);
    StripIsTight(cs, sql[start..end]);
    OneStatement(cs, sql[a..b]);
  }

  /** Splitting any output statement again returns exactly that statement. */
  lemma {:induction false} ResplitFrom(cs: Chars, sql: string, start: nat, s: string)
    requires Sane(cs) && start <= |sql| && s in Kept(cs, Pieces(cs, sql, start))
    ensures Statements(cs, s) == [s]
    decreases |sql| - start
  {
    hide FirstCut;
    var k := FirstCut(cs, sql, start, Normal);
    var end := if k < |sql| then k + 1 else k;
    if k < |sql| {
      KeepAtCut(cs, sql, start, k);
    } else {
      KeepAtEnd(cs, sql, start);
      assert sql[start..] == sql[start..end];
    }
    if s in Keep(cs, sql[start..end]) {
      SegmentResplits(cs, sql, start, end, s);
    } else {
      ResplitFrom(cs, sql, end, s);
    }
  }

  lemma ResplitIsIdentity(cs: Chars, sql: string, s: string)
    requires Sane(cs) && s in Statements(cs, sql)
    ensures Statements(cs, s) == [s]
  {
    ResplitFrom(cs, sql, 0, s);
  }
}
