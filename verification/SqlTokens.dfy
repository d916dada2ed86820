/** What the character machine of the SQL splitter means: a reference lexer on whole tokens.

    A script is a sequence of tokens: plain characters, line and block comments, single-quoted and
    dollar-quoted strings.  Every script has such a reading, and the splitter cuts exactly after
    its plain semicolons, so a semicolon inside a comment or a string never ends a statement.
    A block comment ends at the first star-slash after its opening slash, so the three characters
    slash, star, slash already are a comment; comments do not nest. */
module SqlTokens {
  import opened SqlSplitter

  datatype Token =
    | Plain(c: char)
    | LineComment(body: string)
    | BlockComment(body: string)
    | ShortComment                              // slash, star, slash
    | Quoted(body: string)                      // the string's value, quotes not doubled
    | DollarQuoted(tag: string, body: string)
    | Unclosed(text: string)                    // a comment or string that runs to the end

  function Doubled(s: string): string {
    if s == "" then "" else (if s[0] == '\'' then "''" else [s[0]]) + Doubled(s[1..])
  }

  function Tag(tag: string): string {
    "$" + tag + "$"
  }

  function Render(t: Token): string {
    match t
    case Plain(c) => [c]
    case LineComment(b) => "--" + b + "\n"
    case BlockComment(b) => "/*" + b + "*/"
    case ShortComment => "/*/"
    case Quoted(b) => "'" + Doubled(b) + "'"
    case DollarQuoted(tag, b) => Tag(tag) + b + Tag(tag)
    case Unclosed(text) => text
  }

  function RenderAll(ts: seq<Token>): string {
    if ts == [] then "" else Render(ts[0]) + RenderAll(ts[1..])
  }

  predicate IsTag(cs: Chars, tag: string) {
    forall k :: 0 <= k < |tag| ==> cs.alnum(tag[k]) || tag[k] == '_'
  }

  /** The text s has no star-slash that begins before position n. */
  predicate NoCloseBefore(s: string, n: nat) {
    forall k :: 0 <= k < n ==> !(At(s, k, '*') && At(s, k + 1, '/'))
  }

  predicate NoTextBefore(s: string, n: nat, t: string) {
    forall k :: 0 <= k < n ==> !AtText(s, k, t)
  }

  ghost predicate IsUnclosed(cs: Chars, text: string) {
    || (exists b :: text == "--" + b && '\n' !in b)
    || (exists b :: text == "/*" + b && NoCloseBefore("*" + b, 1 + |b|))
    || (exists b :: text == "'" + Doubled(b))
    || (exists tag, b {:trigger Tag(tag) + b} ::
          IsTag(cs, tag) && text == Tag(tag) + b && NoTextBefore(b, |b|, Tag(tag)))
  }

  /** The token is one token when followed by `rest`. */
  ghost predicate Fits(cs: Chars, t: Token, rest: string) {
    match t
    case Plain(c) =>
      && c != '\'' && !(c == '-' && At(rest, 0, '-')) && !(c == '/' && At(rest, 0, '*'))
      && !(c == '$' && OpensTag(cs, [c] + rest, 0, FindDollar([c] + rest, 1)))
    case LineComment(b) => '\n' !in b
    case BlockComment(b) => NoCloseBefore("*" + b + "*/", 1 + |b|)
    case ShortComment => true
    case Quoted(_) => !At(rest, 0, '\'')
    case DollarQuoted(tag, b) => IsTag(cs, tag) && NoTextBefore(b + Tag(tag), |b|, Tag(tag))
    case Unclosed(text) => rest == "" && IsUnclosed(cs, text)
  }

  ghost predicate AllFit(cs: Chars, ts: seq<Token>) {
    ts == [] || (Fits(cs, ts[0], RenderAll(ts[1..])) && AllFit(cs, ts[1..]))
  }

  /** Segments by tokens: a cut after each plain semicolon. */
  function Segments(ts: seq<Token>, current: string): seq<string>
    decreases |ts|
  {
    if ts == [] then [current]
    else
      var text := current + Render(ts[0]);
      if ts[0] == Plain(';') then [text] + Segments(ts[1..], "") else Segments(ts[1..], text)
  }

  // ------------------------------------------------------------------
  // The machine passes over one token
  // ------------------------------------------------------------------

  // In these lemmas n is the position after the token, or the end of the script.

  lemma {:induction false} SkipLine(cs: Chars, sql: string, i: nat, j: nat, n: nat)
    requires i <= j <= n <= |sql| && (forall k :: i <= k < j ==> sql[k] != '\n')
    requires if j < |sql| then sql[j] == '\n' && n == j + 1 else n == |sql|
    ensures FirstCut(cs, sql, i, Line) == FirstCut(cs, sql, n, Normal)
    decreases j - i
  {
    hide FirstCut;
    if i == |sql| { AtCut(cs, sql, i, Line); AtCut(cs, sql, i, Normal); } else { PassOver(cs, sql, i, Line); }
    if i < j { SkipLine(cs, sql, i + 1, j, n); }
  }

  lemma {:induction false} SkipBlock(cs: Chars, sql: string, i: nat, j: nat, n: nat)
    requires i <= j <= n <= |sql| && (forall k :: i <= k < j ==> !(At(sql, k, '*') && At(sql, k + 1, '/')))
    requires if j < |sql| then At(sql, j, '*') && At(sql, j + 1, '/') && n == j + 2 else n == |sql|
    ensures FirstCut(cs, sql, i, Block) == FirstCut(cs, sql, n, Normal)
    decreases j - i
  {
    hide FirstCut;
    if i == |sql| { AtCut(cs, sql, i, Block); AtCut(cs, sql, i, Normal); } else { PassOver(cs, sql, i, Block); }
    if i < j {
      assert !(At(sql, i, '*') && At(sql, i + 1, '/'));
      SkipBlock(cs, sql, i + 1, j, n);
    }
  }

  lemma TextTail(sql: string, i: nat, text: string, d: nat)
    requires AtText(sql, i, text) && d <= |text|
    ensures AtText(sql, i + d, text[d..]) && forall k :: 0 <= k < |text| ==> sql[i + k] == text[k]
  {
    assert text[d..] == sql[i..i + |text|][d..] == sql[i + d..i + |text|];
  }

  lemma QuotedHead(sql: string, i: nat, b: string, d: nat)
    requires b != "" && AtText(sql, i, Doubled(b)) && d == if b[0] == '\'' then 2 else 1
    ensures |Doubled(b)| == d + |Doubled(b[1..])| && i + |Doubled(b)| <= |sql|
    ensures sql[i] == b[0] && (d == 2 ==> sql[i + 1] == '\'') && AtText(sql, i + d, Doubled(b[1..]))
  {
    var text := Doubled(b);
    assert |text| == d + |Doubled(b[1..])|
      && text[0] == b[0] && (d == 2 ==> text[1] == '\'') && text[d..] == Doubled(b[1..]);
    hide Doubled;
    TextTail(sql, i, text, d);
  }

  lemma {:induction false} SkipQuote(cs: Chars, sql: string, i: nat, b: string, n: nat)
    requires i <= |sql| && AtText(sql, i, Doubled(b))
    requires var j := i + |Doubled(b)|;
             j <= n <= |sql| && if j < |sql| then sql[j] == '\'' && !At(sql, j + 1, '\'') && n == j + 1 else n == |sql|
    ensures FirstCut(cs, sql, i, Quote) == FirstCut(cs, sql, n, Normal)
    decreases |b|
  {
    hide FirstCut;
    if i == |sql| { AtCut(cs, sql, i, Quote); AtCut(cs, sql, i, Normal); } else { PassOver(cs, sql, i, Quote); }
    if b != "" {
      var d := if b[0] == '\'' then 2 else 1;
      QuotedHead(sql, i, b, d);
      SkipQuote(cs, sql, i + d, b[1..], n);
    }
  }

  lemma {:induction false} SkipDollar(cs: Chars, sql: string, i: nat, j: nat, tag: string, n: nat)
    requires i <= j <= n <= |sql| && |tag| > 0 && tag[0] == '$'
    requires forall k :: i <= k < j ==> !AtText(sql, k, tag)
    requires if j < |sql| then AtText(sql, j, tag) && n == j + |tag| else n == |sql|
    ensures FirstCut(cs, sql, i, Dollar(tag)) == FirstCut(cs, sql, n, Normal)
    decreases j - i
  {
    hide FirstCut;
    if i == |sql| {
      AtCut(cs, sql, i, Dollar(tag));
      AtCut(cs, sql, i, Normal);
    } else {
      PassOver(cs, sql, i, Dollar(tag));
    }
    if i < j {
      SkipDollar(cs, sql, i + 1, j, tag, n);
    } else if j < |sql| {
      assert sql[j] == sql[j..j + |tag|][0];
    }
  }

  /** sql continues at i with the text t. */
  lemma CharsAt(sql: string, i: nat, t: string)
    requires i <= |sql| && t <= sql[i..]
    ensures i + |t| <= |sql| && forall k :: i <= k < i + |t| ==> sql[k] == t[k - i]
  {
    forall k | i <= k < i + |t| ensures sql[k] == t[k - i] { assert sql[i..][k - i] == sql[k]; }
  }

  lemma TextAt(sql: string, i: nat, t: string)
    requires i <= |sql|
    ensures t <= sql[i..] <==> AtText(sql, i, t)
  {
    if i + |t| <= |sql| { assert sql[i..][..|t|] == sql[i..i + |t|]; }
  }

  lemma PassPlain(cs: Chars, sql: string, i: nat, c: char, rest: string, n: nat)
    requires i < |sql| && sql[i..] == [c] + rest && c != ';' && Fits(cs, Plain(c), rest) && n == i + 1
    ensures FirstCut(cs, sql, i, Normal) == FirstCut(cs, sql, n, Normal)
  {
    hide FirstCut;
    assert sql[i] == sql[i..][0] == c;
    assert forall d :: At(sql, i + 1, d) <==> At(rest, 0, d) by {
      assert |sql| > i + 1 ==> sql[i + 1] == sql[i..][1] == rest[0];
    }
    if c == '$' { DollarShift(cs, sql, i); }
    PassOver(cs, sql, i, Normal);
    assert Advance(cs, sql, i, Normal) == (n, Normal);
  }

  lemma DollarShift(cs: Chars, sql: string, i: nat)
    requires i < |sql|
    ensures var e, e' := FindDollar(sql, i + 1), FindDollar(sql[i..], 1);
            e == e' + i && (OpensTag(cs, sql, i, e) <==> OpensTag(cs, sql[i..], 0, e'))
  {
    var e, e' := FindDollar(sql, i + 1), FindDollar(sql[i..], 1);
    assert forall k :: i <= k < |sql| ==> sql[k] == sql[i..][k - i];
    if e < |sql| { assert sql[i..][e - i] == '$'; }
    if e' < |sql| - i { assert sql[e' + i] == '$'; }
    if OpensTag(cs, sql[i..], 0, e') {
      forall k | i < k < e ensures cs.alnum(sql[k]) || sql[k] == '_' { assert sql[i..][k - i] == sql[k]; }
    }
  }

  lemma TagChars(cs: Chars, sql: string, i: nat, tag: string)
    requires Sane(cs) && i < |sql| && IsTag(cs, tag) && Tag(tag) <= sql[i..]
    ensures var e := i + 1 + |tag|; e < |sql| && sql[i] == '$' && sql[e] == '$'
    ensures forall k :: i < k < i + 1 + |tag| ==> sql[k] != '$' && (cs.alnum(sql[k]) || sql[k] == '_')
  {
    var g := Tag(tag);
    CharsAt(sql, i, g);
    assert sql[i] == g[0] && sql[i + 1 + |tag|] == g[1 + |tag|];
    forall k | i < k < i + 1 + |tag| ensures sql[k] != '$' && (cs.alnum(sql[k]) || sql[k] == '_') {
      assert sql[k] == g[k - i] == tag[k - i - 1];
      assert Punctuation('$');
    }
  }

  lemma TagOpens(cs: Chars, sql: string, i: nat, tag: string)
    requires Sane(cs) && i < |sql| && IsTag(cs, tag) && Tag(tag) <= sql[i..]
    ensures var e := i + 1 + |tag|;
            e < |sql| && sql[i] == '$' && FindDollar(sql, i + 1) == e && OpensTag(cs, sql, i, e)
            && sql[i..e + 1] == Tag(tag)
  {
    TagChars(cs, sql, i, tag);
    TextAt(sql, i, Tag(tag));
  }

  /** From the `$` of an opening tag the machine goes to the text after it. */
  lemma OpenDollar(cs: Chars, sql: string, i: nat, tag: string, n: nat)
    requires Sane(cs) && i < |sql| && IsTag(cs, tag) && Tag(tag) <= sql[i..] && n == i + |Tag(tag)|
    ensures n <= |sql| && FirstCut(cs, sql, i, Normal) == FirstCut(cs, sql, n, Dollar(Tag(tag)))
  {
    hide FirstCut;
    TagOpens(cs, sql, i, tag);
    PassOver(cs, sql, i, Normal);
    assert Advance(cs, sql, i, Normal) == (n, Dollar(Tag(tag)));
  }

  lemma PassLine(cs: Chars, sql: string, i: nat, b: string, n: nat)
    requires i < |sql| && "--" + b <= sql[i..] && '\n' !in b
    requires i + 2 + |b| <= n <= |sql|
    requires var j := i + 2 + |b|; if j < |sql| then sql[j] == '\n' && n == j + 1 else n == |sql|
    ensures FirstCut(cs, sql, i, Normal) == FirstCut(cs, sql, n, Normal)
  {
    hide FirstCut;
    CharsAt(sql, i, "--" + b);
    var j := i + 2 + |b|;
    assert sql[i] == '-' && sql[i + 1] == '-';
    forall k | i + 1 <= k < j ensures sql[k] != '\n' { assert sql[k] == ("--" + b)[k - i]; }
    PassOver(cs, sql, i, Normal);
    SkipLine(cs, sql, i + 1, j, n);
  }

  lemma PassBlock(cs: Chars, sql: string, i: nat, b: string, n: nat)
    requires i < |sql| && "/" + ("*" + b) <= sql[i..] && i + 2 + |b| <= n <= |sql|
    requires var j := i + 2 + |b|;
             if j < |sql| then At(sql, j, '*') && At(sql, j + 1, '/') && n == j + 2 else n == |sql|
    requires NoCloseBefore(sql[i + 1..n], 1 + |b|)
    ensures FirstCut(cs, sql, i, Normal) == FirstCut(cs, sql, n, Normal)
  {
    hide FirstCut;
    CharsAt(sql, i, "/" + ("*" + b));
    var j := i + 2 + |b|;
    assert sql[i] == '/' && sql[i + 1] == '*';
    var text := sql[i + 1..n];
    assert forall k :: i + 1 <= k < n ==> sql[k] == text[k - i - 1];
    forall k | i + 1 <= k < j ensures !(At(sql, k, '*') && At(sql, k + 1, '/')) {
      assert !(At(text, k - i - 1, '*') && At(text, k - i, '/'));
    }
    PassOver(cs, sql, i, Normal);
    SkipBlock(cs, sql, i + 1, j, n);
  }

  lemma PassQuote(cs: Chars, sql: string, i: nat, b: string, n: nat)
    requires i < |sql| && "'" + Doubled(b) <= sql[i..]
    requires var j := i + 1 + |Doubled(b)|;
             j <= n <= |sql| && if j < |sql| then sql[j] == '\'' && !At(sql, j + 1, '\'') && n == j + 1 else n == |sql|
    ensures FirstCut(cs, sql, i, Normal) == FirstCut(cs, sql, n, Normal)
  {
    hide FirstCut;
    var t := "'" + Doubled(b);
    CharsAt(sql, i, t);
    assert sql[i] == '\'';
    assert sql[i + 1..i + 1 + |Doubled(b)|] == t[1..] == Doubled(b);
    PassOver(cs, sql, i, Normal);
    SkipQuote(cs, sql, i + 1, b, n);
  }

  /** What follows the opening tag has no closing tag before position |b|. */
  lemma BodyHasNoTag(sql: string, from: nat, b: string, inner: string, g: string)
    requires from <= |sql| && inner <= sql[from..] && |b| <= |inner| && NoTextBefore(inner, |b|, g)
    requires |inner| == |b| + |g| || sql[from..] == inner
    ensures forall k :: from <= k < from + |b| ==> !AtText(sql, k, g)
  {
    forall k | from <= k < from + |b| ensures !AtText(sql, k, g) {
      var d := k - from;
      if AtText(sql, k, g) {
        assert inner[d..d + |g|] == sql[from..][d..d + |g|] == sql[k..k + |g|];
        assert AtText(inner, d, g);
      }
    }
  }

  lemma PassDollar(cs: Chars, sql: string, i: nat, tag: string, b: string, n: nat)
    requires Sane(cs) && i < |sql| && IsTag(cs, tag) && n == i + |Tag(tag)| + |b| + |Tag(tag)|
    requires Tag(tag) + (b + Tag(tag)) <= sql[i..] && NoTextBefore(b + Tag(tag), |b|, Tag(tag))
    ensures n <= |sql| && FirstCut(cs, sql, i, Normal) == FirstCut(cs, sql, n, Normal)
  {
    hide FirstCut;
    var g := Tag(tag);
    var from := i + |g|;
    var j := from + |b|;
    assert g <= g + (b + g);
    OpenDollar(cs, sql, i, tag, from);
    assert sql[from..] == sql[i..][|g|..];
    assert b + g <= sql[from..] && b <= b + g;
    BodyHasNoTag(sql, from, b, b + g, g);
    assert sql[j..] == sql[from..][|b|..];
    TextAt(sql, j, g);
    SkipDollar(cs, sql, from, j, g, n);
  }

  lemma PassOpenDollar(cs: Chars, sql: string, i: nat, tag: string, b: string)
    requires Sane(cs) && i < |sql| && IsTag(cs, tag)
    requires sql[i..] == Tag(tag) + b && NoTextBefore(b, |b|, Tag(tag))
    ensures FirstCut(cs, sql, i, Normal) == FirstCut(cs, sql, |sql|, Normal)
  {
    hide FirstCut;
    var g := Tag(tag);
    var from := i + |g|;
    OpenDollar(cs, sql, i, tag, from);
    assert sql[from..] == sql[i..][|g|..] == b;
    BodyHasNoTag(sql, from, b, b, g);
    SkipDollar(cs, sql, from, |sql|, g, |sql|);
  }

  // ------------------------------------------------------------------
  // The splitter cuts exactly after the plain semicolons
  // ------------------------------------------------------------------

  lemma PassQuotedToken(cs: Chars, sql: string, i: nat, b: string, rest: string, n: nat)
    requires i <= |sql| && sql[i..] == Render(Quoted(b)) + rest && !At(rest, 0, '\'') && n == i + |Render(Quoted(b))|
    ensures FirstCut(cs, sql, i, Normal) == FirstCut(cs, sql, n, Normal)
  {
    hide FirstCut;
    var text := Render(Quoted(b));
    assert "'" + Doubled(b) <= text <= sql[i..];
    CharsAt(sql, i, text);
    assert sql[n - 1] == '\'';
    assert sql[n..] == rest;
    assert n < |sql| ==> sql[n] == sql[n..][0] == rest[0];
    PassQuote(cs, sql, i, b, n);
  }

  lemma PassBlockToken(cs: Chars, sql: string, i: nat, b: string, rest: string, n: nat)
    requires i <= |sql| && sql[i..] == Render(BlockComment(b)) + rest && n == i + |Render(BlockComment(b))|
    requires NoCloseBefore("*" + b + "*/", 1 + |b|)
    ensures FirstCut(cs, sql, i, Normal) == FirstCut(cs, sql, n, Normal)
  {
    hide FirstCut;
    var text := Render(BlockComment(b));
    assert text == "/" + ("*" + b + "*/");
    CharsAt(sql, i, text);
    assert sql[i + 1..n] == sql[i..][1..n - i] == "*" + b + "*/";
    assert "/" + ("*" + b) <= text;
    PassBlock(cs, sql, i, b, n);
  }

  lemma PassShortComment(cs: Chars, sql: string, i: nat, n: nat)
    requires i <= |sql| && "/*/" <= sql[i..] && n == i + 3
    ensures FirstCut(cs, sql, i, Normal) == FirstCut(cs, sql, n, Normal)
  {
    hide FirstCut;
    CharsAt(sql, i, "/*/");
    PassOver(cs, sql, i, Normal);
    SkipBlock(cs, sql, i + 1, i + 1, n);
  }

  lemma Sandwich(g: string, b: string, rest: string)
    ensures g + (b + g) <= g + b + g + rest
  {
    assert g + b + g == g + (b + g);
  }

  lemma PassDollarToken(cs: Chars, sql: string, i: nat, tag: string, b: string, rest: string, n: nat)
    requires Sane(cs) && i <= |sql| && sql[i..] == Render(DollarQuoted(tag, b)) + rest
    requires IsTag(cs, tag) && NoTextBefore(b + Tag(tag), |b|, Tag(tag))
    requires n == i + |Render(DollarQuoted(tag, b))|
    ensures FirstCut(cs, sql, i, Normal) == FirstCut(cs, sql, n, Normal)
  {
    hide FirstCut, NoTextBefore, IsTag;
    assert Tag(tag) != "";
    hide Tag;
    Sandwich(Tag(tag), b, rest);
    PassDollar(cs, sql, i, tag, b, n);
  }

  lemma PassToken(cs: Chars, sql: string, i: nat, t: Token, rest: string, n: nat)
    requires Sane(cs) && i <= |sql| && sql[i..] == Render(t) + rest && Fits(cs, t, rest) && t != Plain(';')
    requires n == i + |Render(t)|
    ensures FirstCut(cs, sql, i, Normal) == FirstCut(cs, sql, n, Normal)
  {
    hide FirstCut, Advance, FindDollar, IsUnclosed, NoCloseBefore, NoTextBefore, Doubled, OpensTag, IsTag, Tag;
    match t
    case Plain(c) => PassPlain(cs, sql, i, c, rest, n);
    case LineComment(b) =>
      CharsAt(sql, i, Render(t));
      assert sql[n - 1] == '\n' && "--" + b <= Render(t);
      PassLine(cs, sql, i, b, n);
    case BlockComment(b) => PassBlockToken(cs, sql, i, b, rest, n);
    case ShortComment => PassShortComment(cs, sql, i, n);
    case Quoted(b) => PassQuotedToken(cs, sql, i, b, rest, n);
    case DollarQuoted(tag, b) =>
      PassDollarToken(cs, sql, i, tag, b, rest, n);
    case Unclosed(text) =>
      assert n == |sql| && sql[i..] == text;
      PassUnclosed(cs, sql, i, text);
  }

  lemma PassUnclosed(cs: Chars, sql: string, i: nat, text: string)
    requires Sane(cs) && i <= |sql| && sql[i..] == text && IsUnclosed(cs, text)
    ensures FirstCut(cs, sql, i, Normal) == FirstCut(cs, sql, |sql|, Normal)
  {
    hide FirstCut;
    assert text == "" || i < |sql|;
    if b :| text == "--" + b && '\n' !in b {
      PassLine(cs, sql, i, b, |sql|);
    } else if b :| text == "/*" + b && NoCloseBefore("*" + b, 1 + |b|) {
      assert text == "/" + ("*" + b);
      assert sql[i + 1..|sql|] == text[1..] == "*" + b;
      PassBlock(cs, sql, i, b, |sql|);
    } else if b :| text == "'" + Doubled(b) {
      PassQuote(cs, sql, i, b, |sql|);
    } else {
      var tag, b :| IsTag(cs, tag) && text == Tag(tag) + b && NoTextBefore(b, |b|, Tag(tag));
      PassOpenDollar(cs, sql, i, tag, b);
    }
  }

  lemma NextToken(sql: string, start: nat, i: nat, text: string, rest: string)
    requires start <= i <= |sql| && sql[i..] == text + rest
    ensures i + |text| <= |sql| && sql[i + |text|..] == rest
    ensures sql[start..i + |text|] == sql[start..i] + text
  {
    assert sql[i + |text|..] == sql[i..][|text|..];
    assert sql[i..i + |text|] == sql[i..][..|text|];
  }

  lemma NoTokensLeft(cs: Chars, sql: string, start: nat, i: nat)
    requires start <= i <= |sql| && sql[i..] == ""
    requires FirstCut(cs, sql, start, Normal) == FirstCut(cs, sql, i, Normal)
    ensures Pieces(cs, sql, start) == [sql[start..i]]
  {
    hide FirstCut;
    assert i == |sql|;
    LastPiece(cs, sql, start);
    assert sql[start..] == sql[start..i];
  }

  lemma SegmentsStep(ts: seq<Token>, current: string)
    requires ts != []
    ensures ts[0] == Plain(';') ==> Segments(ts, current) == [current + ";"] + Segments(ts[1..], "")
    ensures ts[0] != Plain(';') ==> Segments(ts, current) == Segments(ts[1..], current + Render(ts[0]))
  {
  }

  lemma {:induction false} CutsAreSemicolonTokens(cs: Chars, sql: string, start: nat, i: nat, ts: seq<Token>)
    requires Sane(cs) && start <= i <= |sql| && sql[i..] == RenderAll(ts) && AllFit(cs, ts)
    requires FirstCut(cs, sql, start, Normal) == FirstCut(cs, sql, i, Normal)
    ensures Pieces(cs, sql, start) == Segments(ts, sql[start..i])
    decreases |ts|
  {
    hide FirstCut, Pieces;
    if ts == [] {
      NoTokensLeft(cs, sql, start, i);
    } else {
      var text := Render(ts[0]);
      var n := i + |text|;
      NextToken(sql, start, i, text, RenderAll(ts[1..]));
      SegmentsStep(ts, sql[start..i]);
      if ts[0] == Plain(';') {
        assert sql[i] == sql[i..][0];
        AtCut(cs, sql, i, Normal);
        CutPiece(cs, sql, start, i);
        CutsAreSemicolonTokens(cs, sql, n, n, ts[1..]);
        var rest := Segments(ts[1..], "");
        assert Pieces(cs, sql, n) == rest by { assert sql[n..n] == ""; }
        assert n == i + 1;
      } else {
        PassToken(cs, sql, i, ts[0], RenderAll(ts[1..]), n);
        CutsAreSemicolonTokens(cs, sql, start, n, ts[1..]);
        var current := sql[start..n];
        assert current == sql[start..i] + text;
        assert Segments(ts, sql[start..i]) == Segments(ts[1..], current);
      }
    }
  }

  /** The docstring's promise: for any reading of a script as tokens, the statements are the
      non-blank segments between its plain semicolons. */
  lemma StatementsFollowTokens(cs: Chars, ts: seq<Token>)
    requires Sane(cs) && AllFit(cs, ts)
    ensures Statements(cs, RenderAll(ts)) == Kept(cs, Segments(ts, ""))
  {
    var sql := RenderAll(ts);
    assert sql[0..] == sql && sql[0..0] == "";
    CutsAreSemicolonTokens(cs, sql, 0, 0, ts);
  }

  // ------------------------------------------------------------------
  // Every script is a sequence of tokens
  // ------------------------------------------------------------------

  /** Reads a single-quoted string from its first character on. */
  function ReadQuoted(s: string): (string, bool) {
    if s == "" then ("", false)
    else if s[0] != '\'' then var (b, closed) := ReadQuoted(s[1..]); ([s[0]] + b, closed)
    else if At(s, 1, '\'') then var (b, closed) := ReadQuoted(s[2..]); ("'" + b, closed)
    else ("", true)
  }

  lemma DoubledCons(c: char, b: string)
    ensures Doubled([c] + b) == (if c == '\'' then "''" else [c]) + Doubled(b)
  {
    assert ([c] + b)[1..] == b;
  }

  lemma {:induction false} QuotedMeans(s: string)
    ensures var (b, closed) := ReadQuoted(s);
            if closed then Doubled(b) + "'" <= s && !At(s, |Doubled(b)| + 1, '\'') else Doubled(b) == s
  {
    hide Doubled;
    if s == "" {
      EmptyDoubled();
    } else if s[0] != '\'' {
      var b := ReadQuoted(s[1..]).0;
      QuotedMeans(s[1..]);
      DoubledCons(s[0], b);
      assert s == [s[0]] + s[1..];
    } else if At(s, 1, '\'') {
      var b := ReadQuoted(s[2..]).0;
      QuotedMeans(s[2..]);
      DoubledCons('\'', b);
      assert s == "''" + s[2..];
    } else {
      EmptyDoubled();
    }
  }

  lemma EmptyDoubled()
    ensures Doubled("") == ""
  {
  }

  function FindChar(s: string, i: nat, c: char): (k: nat)
    requires i <= |s|
    ensures i <= k <= |s| && (forall j :: i <= j < k ==> s[j] != c) && (k < |s| ==> s[k] == c)
    decreases |s| - i
  {
    if i == |s| || s[i] == c then i else FindChar(s, i + 1, c)
  }

  function FindClose(s: string, i: nat): (k: nat)
    requires i <= |s|
    ensures i <= k <= |s| && (forall j :: i <= j < k ==> !(At(s, j, '*') && At(s, j + 1, '/')))
    ensures k < |s| ==> At(s, k, '*') && At(s, k + 1, '/')
    decreases |s| - i
  {
    if i == |s| || (At(s, i, '*') && At(s, i + 1, '/')) then i else FindClose(s, i + 1)
  }

  function FindText(s: string, i: nat, t: string): (k: nat)
    requires i <= |s|
    ensures i <= k <= |s| && (forall j :: i <= j < k ==> !AtText(s, j, t)) && (k < |s| ==> AtText(s, k, t))
    decreases |s| - i
  {
    if i == |s| || AtText(s, i, t) then i else FindText(s, i + 1, t)
  }

  lemma LineToken(cs: Chars, s: string) returns (t: Token)
    requires At(s, 0, '-') && At(s, 1, '-')
    ensures Render(t) <= s && Fits(cs, t, s[|Render(t)|..]) && Render(t) != ""
  {
    var k := FindChar(s, 2, '\n');
    var b := s[2..k];
    assert s[..k] == "--" + b;
    if k < |s| {
      assert s[..k + 1] == "--" + b + "\n";
      t := LineComment(b);
    } else {
      assert s == "--" + b;
      t := Unclosed(s);
    }
  }

  lemma NoCloseInside(s: string, text: string, n: nat)
    requires |s| > 0 && text <= s[1..] && n <= FindClose(s, 1) - 1
    ensures NoCloseBefore(text, n)
  {
    forall d | 0 <= d < n ensures !(At(text, d, '*') && At(text, d + 1, '/')) {
      assert !(At(s, d + 1, '*') && At(s, d + 2, '/'));
      assert forall x :: 0 <= x < |text| ==> text[x] == s[1..][x] == s[x + 1];
    }
  }

  lemma BlockToken(cs: Chars, s: string) returns (t: Token)
    requires At(s, 0, '/') && At(s, 1, '*')
    ensures Render(t) <= s && Fits(cs, t, s[|Render(t)|..]) && Render(t) != ""
  {
    hide FindClose;
    var k := FindClose(s, 1);
    if k == 1 {
      assert s[..3] == "/*/";
      t := ShortComment;
    } else if k < |s| {
      var b := s[2..k];
      var text := "*" + b + "*/";
      assert s[1..][..|text|] == text;
      NoCloseInside(s, text, 1 + |b|);
      t := BlockComment(b);
      assert Render(t) == "/" + text <= s;
    } else {
      var b := s[2..];
      assert s[1..] == "*" + b;
      NoCloseInside(s, "*" + b, 1 + |b|);
      assert s == "/*" + b;
      t := Unclosed(s);
    }
  }

  lemma QuoteToken(cs: Chars, s: string) returns (t: Token)
    requires At(s, 0, '\'')
    ensures Render(t) <= s && Fits(cs, t, s[|Render(t)|..]) && Render(t) != ""
  {
    var (b, closed) := ReadQuoted(s[1..]);
    QuotedMeans(s[1..]);
    if closed {
      t := Quoted(b);
      assert Render(t) == "'" + (Doubled(b) + "'") <= s;
    } else {
      assert s == "'" + Doubled(b);
      t := Unclosed(s);
    }
  }

  lemma TextOutside(s: string, a: nat, b: nat, d: nat, g: string)
    requires a <= b <= |s| && AtText(s[a..b], d, g)
    ensures AtText(s, a + d, g)
  {
    SliceOfSlice(s, a, b, a + d, a + d + |g|);
  }

  lemma NoTextInside(s: string, a: nat, b: nat, n: nat, g: string)
    requires a <= b <= |s| && a + n <= FindText(s, a, g)
    ensures NoTextBefore(s[a..b], n, g)
  {
    hide AtText, FindText;
    forall d | 0 <= d < n ensures !AtText(s[a..b], d, g) {
      if AtText(s[a..b], d, g) {
        TextOutside(s, a, b, d, g);
      }
    }
  }

  lemma ClosedDollar(cs: Chars, s: string, tag: string, b: string)
    requires IsTag(cs, tag) && NoTextBefore(b + Tag(tag), |b|, Tag(tag))
    requires var e := |Tag(tag)|; var k := e + |b| + e; k <= |s| && s[..e] == Tag(tag) && s[e..k] == b + Tag(tag)
    ensures var t := DollarQuoted(tag, b); Render(t) <= s && Fits(cs, t, s[|Render(t)|..])
  {
    var e := |Tag(tag)|;
    assert Render(DollarQuoted(tag, b)) == Tag(tag) + (b + Tag(tag)) == s[..e] + s[e..e + |b| + e];
  }

  lemma OpenDollarText(cs: Chars, s: string, tag: string, b: string)
    requires IsTag(cs, tag) && NoTextBefore(b, |b|, Tag(tag)) && s == Tag(tag) + b
    ensures IsUnclosed(cs, s)
  {
  }

  lemma TagText(cs: Chars, s: string, e: nat)
    requires At(s, 0, '$') && At(s, e, '$') && 0 < e && OpensTag(cs, s, 0, e)
    ensures IsTag(cs, s[1..e]) && s[..e + 1] == Tag(s[1..e])
  {
    forall j | 0 <= j < e - 1 ensures cs.alnum(s[1..e][j]) || s[1..e][j] == '_' { assert s[1..e][j] == s[j + 1]; }
  }

  lemma DollarToken(cs: Chars, s: string, e: nat) returns (t: Token)
    requires At(s, 0, '$') && e == FindDollar(s, 1) && OpensTag(cs, s, 0, e)
    ensures Render(t) <= s && Fits(cs, t, s[|Render(t)|..]) && Render(t) != ""
  {
    hide FindDollar, FindText, NoTextBefore, IsUnclosed, IsTag, Tag;
    var tag := s[1..e];
    var g := Tag(tag);
    TagText(cs, s, e);
    var k := FindText(s, e + 1, g);
    var b := s[e + 1..k];
    if k < |s| {
      var end := k + |g|;
      NoTextInside(s, e + 1, end, |b|, g);
      assert s[k..end] == g;
      assert s[e + 1..end] == b + g;
      t := DollarQuoted(tag, b);
      ClosedDollar(cs, s, tag, b);
    } else {
      NoTextInside(s, e + 1, |s|, |b|, g);
      assert s[e + 1..|s|] == b;
      assert s == s[..e + 1] + s[e + 1..|s|];
      OpenDollarText(cs, s, tag, b);
      t := Unclosed(s);
    }
  }

  lemma FirstToken(cs: Chars, s: string) returns (t: Token)
    requires Sane(cs) && s != ""
    ensures Render(t) <= s && Fits(cs, t, s[|Render(t)|..]) && Render(t) != ""
  {
    var e := FindDollar(s, 1);
    if s[0] == '-' && At(s, 1, '-') {
      t := LineToken(cs, s);
    } else if s[0] == '/' && At(s, 1, '*') {
      t := BlockToken(cs, s);
    } else if s[0] == '\'' {
      t := QuoteToken(cs, s);
    } else if s[0] == '$' && OpensTag(cs, s, 0, e) {
      t := DollarToken(cs, s, e);
    } else {
      t := Plain(s[0]);
      assert [s[0]] + s[1..] == s;
      assert forall d :: At(s[1..], 0, d) ==> At(s, 1, d);
    }
  }

  /** Every script has a reading as tokens, so StatementsFollowTokens speaks about every script. */
  lemma {:induction false} EveryScriptHasTokens(cs: Chars, s: string) returns (ts: seq<Token>)
    requires Sane(cs)
    ensures RenderAll(ts) == s && AllFit(cs, ts)
    decreases |s|
  {
    if s == "" {
      ts := [];
    } else {
      var t := FirstToken(cs, s);
      var rest := s[|Render(t)|..];
      var ts' := EveryScriptHasTokens(cs, rest);
      ts := [t] + ts';
      assert ts[1..] == ts';
    }
  }
}
