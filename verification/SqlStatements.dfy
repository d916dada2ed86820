/** Which statements the SQL splitter returns, read off the segments alone.

    Every segment between two cuts is returned as one statement, from its first to its last non-blank
    character, unless it is blank or holds nothing but its semicolon. */
module SqlStatements {
  import opened SqlSplitter

  /** The segment holds some character that is neither blank nor a semicolon on its own. */
  predicate Substantial(cs: Chars, p: string) {
    exists j :: 0 <= j < |p| && !cs.space(p[j])
      && !(p[j] == ';' && forall i :: 0 <= i < |p| && i != j ==> cs.space(p[i]))
  }

  /** p[a..b] runs from the first to the last non-blank character of p. */
  predicate IsCore(cs: Chars, p: string, a: nat, b: nat) {
    && a < b <= |p| && !cs.space(p[a]) && !cs.space(p[b - 1])
    && forall i :: 0 <= i < |p| && !(a <= i < b) ==> cs.space(p[i])
  }

  /** In order and one for one, the statements are the cores of the substantial segments. */
  ghost predicate Selected(cs: Chars, ps: seq<string>, statements: seq<string>)
    decreases |ps|
  {
    if ps == [] then statements == []
    else if Substantial(cs, ps[0]) then
      && statements != []
      && (exists a: nat, b: nat :: IsCore(cs, ps[0], a, b) && statements[0] == ps[0][a..b])
      && Selected(cs, ps[1..], statements[1..])
    else Selected(cs, ps[1..], statements)
  }

  /** A segment has one core at most. */
  lemma CoreIsUnique(cs: Chars, p: string, a: nat, b: nat, c: nat, d: nat)
    requires IsCore(cs, p, a, b) && IsCore(cs, p, c, d)
    ensures a == c && b == d
  {
    assert a <= c < b && c <= a < d && a <= d - 1 < b && c <= b - 1 < d;
  }

  lemma StripIsCore(cs: Chars, p: string) returns (a: nat, b: nat)
    requires Strip(cs, p) != ""
    ensures IsCore(cs, p, a, b) && Strip(cs, p) == p[a..b]
  {
    StripIsSlice(cs, p);
    StripIsTight(cs, p);
    LeadIsBlank(cs, p);
    a := Lead(cs, p);
    b := a + Trail(cs, p[a..]);
    assert p[a..b][0] == p[a] && p[a..b][b - a - 1] == p[b - 1];
  }

  lemma StripsToNothing(cs: Chars, p: string)
    ensures Strip(cs, p) == "" <==> forall i :: 0 <= i < |p| ==> cs.space(p[i])
  {
    if Strip(cs, p) == "" {
      StripIsSlice(cs, p);
      LeadIsBlank(cs, p);
    } else {
      var a, b := StripIsCore(cs, p);
      assert !cs.space(p[a]);
    }
  }

  /** What is kept of one segment: its core, exactly when it is substantial. */
  lemma KeepMeans(cs: Chars, p: string)
    ensures if Substantial(cs, p)
            then |Keep(cs, p)| == 1 && exists a: nat, b: nat :: IsCore(cs, p, a, b) && Keep(cs, p)[0] == p[a..b]
            else Keep(cs, p) == []
  {
    StripsToNothing(cs, p);
    if Strip(cs, p) != "" {
      var a, b := StripIsCore(cs, p);
      if Strip(cs, p) == ";" {
        assert b == a + 1 && p[a..b][0] == p[a];
        assert !Substantial(cs, p);
      } else if b == a + 1 {
        assert p[a..b] == [p[a]];
        assert !cs.space(p[a]) && p[a] != ';';
      } else {
        assert !cs.space(p[a]) && !cs.space(p[b - 1]) && b - 1 != a;
      }
    }
  }

  lemma {:induction false} KeptIsSelected(cs: Chars, ps: seq<string>)
    ensures Selected(cs, ps, Kept(cs, ps))
    decreases |ps|
  {
    hide Keep, Substantial, IsCore;
    if ps != [] {
      KeepMeans(cs, ps[0]);
      KeptIsSelected(cs, ps[1..]);
      var kept := Keep(cs, ps[0]);
      assert (kept + Kept(cs, ps[1..]))[|kept|..] == Kept(cs, ps[1..]);
    }
  }

  /** The statements of a script, in order and one for one, are the cores of its substantial segments. */
  lemma StatementsAreTheSegments(cs: Chars, sql: string)
    ensures Flatten(Pieces(cs, sql, 0)) == sql
    ensures Selected(cs, Pieces(cs, sql, 0), Statements(cs, sql))
  {
    PiecesPartition(cs, sql, 0);
    KeptIsSelected(cs, Pieces(cs, sql, 0));
  }

  // ------------------------------------------------------------------
  // No character is lost
  // ------------------------------------------------------------------

  function NonBlank(cs: Chars, s: string): string {
    if s == "" then "" else (if cs.space(s[0]) then "" else [s[0]]) + NonBlank(cs, s[1..])
  }

  lemma {:induction false} NonBlankConcat(cs: Chars, s: string, t: string)
    ensures NonBlank(cs, s + t) == NonBlank(cs, s) + NonBlank(cs, t)
  {
    if s == "" {
      assert s + t == t;
    } else {
      NonBlankConcat(cs, s[1..], t);
      assert (s + t)[1..] == s[1..] + t;
    }
  }

  lemma {:induction false} BlankIsNothing(cs: Chars, s: string)
    requires forall i :: 0 <= i < |s| ==> cs.space(s[i])
    ensures NonBlank(cs, s) == ""
  {
    if s != "" {
      BlankIsNothing(cs, s[1..]);
    }
  }

  lemma CoreHasAll(cs: Chars, p: string, a: nat, b: nat)
    requires IsCore(cs, p, a, b)
    ensures NonBlank(cs, p[a..b]) == NonBlank(cs, p)
  {
    assert p == p[..a] + (p[a..b] + p[b..]);
    NonBlankConcat(cs, p[..a], p[a..b] + p[b..]);
    NonBlankConcat(cs, p[a..b], p[b..]);
    BlankIsNothing(cs, p[..a]);
    BlankIsNothing(cs, p[b..]);
  }

  /** An unsubstantial segment holds one semicolon or nothing. */
  lemma UnsubstantialIsNothing(cs: Chars, p: string)
    requires !Substantial(cs, p)
    ensures NonBlank(cs, p) == "" || NonBlank(cs, p) == ";"
  {
    if j :| 0 <= j < |p| && !cs.space(p[j]) {
      assert p[j] == ';' && forall i :: 0 <= i < |p| && i != j ==> cs.space(p[i]);
      assert IsCore(cs, p, j, j + 1) && p[j..j + 1] == ";";
      CoreHasAll(cs, p, j, j + 1);
      assert ";"[1..] == "";
    } else {
      BlankIsNothing(cs, p);
    }
  }

  /** The non-blank characters of the segments, those of unsubstantial ones left out. */
  function Essence(cs: Chars, ps: seq<string>): string {
    if ps == [] then "" else (if Substantial(cs, ps[0]) then NonBlank(cs, ps[0]) else "") + Essence(cs, ps[1..])
  }

  lemma {:induction false} SelectionKeepsEssence(cs: Chars, ps: seq<string>, statements: seq<string>)
    requires Selected(cs, ps, statements)
    ensures NonBlank(cs, Flatten(statements)) == Essence(cs, ps)
    decreases |ps|
  {
    hide Substantial;
    if ps != [] {
      if Substantial(cs, ps[0]) {
        var a: nat, b: nat :| IsCore(cs, ps[0], a, b) && statements[0] == ps[0][a..b];
        CoreHasAll(cs, ps[0], a, b);
        NonBlankConcat(cs, statements[0], Flatten(statements[1..]));
        SelectionKeepsEssence(cs, ps[1..], statements[1..]);
      } else {
        SelectionKeepsEssence(cs, ps[1..], statements);
      }
    }
  }

  lemma {:induction false} SubstantialEssence(cs: Chars, ps: seq<string>)
    requires forall p :: p in ps ==> Substantial(cs, p) || NonBlank(cs, p) == ""
    ensures Essence(cs, ps) == NonBlank(cs, Flatten(ps))
  {
    hide Substantial;
    if ps != [] {
      assert ps[0] in ps;
      SubstantialEssence(cs, ps[1..]);
      NonBlankConcat(cs, ps[0], Flatten(ps[1..]));
    }
  }

  /** The non-blank characters of the statements are, in order, those of the script; only semicolons with
      nothing before them are missing. */
  lemma NoCharacterIsLost(cs: Chars, sql: string)
    ensures NonBlank(cs, Flatten(Statements(cs, sql))) == Essence(cs, Pieces(cs, sql, 0))
    ensures forall p :: p in Pieces(cs, sql, 0) && !Substantial(cs, p) ==>
              NonBlank(cs, p) == "" || NonBlank(cs, p) == ";"
    ensures (forall p :: p in Pieces(cs, sql, 0) ==> NonBlank(cs, p) != ";") ==>
              NonBlank(cs, Flatten(Statements(cs, sql))) == NonBlank(cs, sql)
  {
    hide Substantial, NonBlank, Statements, Pieces, Essence, Flatten;
    var ps := Pieces(cs, sql, 0);
    StatementsAreTheSegments(cs, sql);
    SelectionKeepsEssence(cs, ps, Statements(cs, sql));
    forall p | p in ps && !Substantial(cs, p) ensures NonBlank(cs, p) == "" || NonBlank(cs, p) == ";" {
      UnsubstantialIsNothing(cs, p);
    }
    if forall p :: p in ps ==> NonBlank(cs, p) != ";" {
      SubstantialEssence(cs, ps);
    }
  }
}
