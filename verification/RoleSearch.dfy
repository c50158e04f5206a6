/**
  A role is found by searching the stored JSON text for its name in quotes.  What that finds, for
  every list of roles and every name, and when it is what was meant.
 */
module RoleSearch {
  import opened Wrappers
  import opened Roles

  predicate OccursAt(text: string, pattern: string, p: nat) {
    p + |pattern| <= |text| && text[p..p + |pattern|] == pattern
  }

  /** instr(text, pattern) > 0 */
  predicate Occurs(text: string, pattern: string) {
    exists p :: 0 <= p <= |text| && OccursAt(text, pattern, p)
  }

  lemma OccurrenceByCharacter(text: string, pattern: string, p: nat)
    requires OccursAt(text, pattern, p)
    ensures forall i :: 0 <= i < |pattern| ==> text[p + i] == pattern[i]
  {
    forall i | 0 <= i < |pattern| ensures text[p + i] == pattern[i] {
      assert text[p..p + |pattern|][i] == pattern[i];
    }
  }

  lemma OccursBetween(before: string, pattern: string, after: string)
    ensures OccursAt(before + pattern + after, pattern, |before|)
  {
    assert (before + pattern + after)[|before|..|before| + |pattern|] == pattern;
  }

  // ------------------------------------------------------------------ what stands between the quotes

  /** The parts of a text between its quotes. */
  function Split(s: string): (parts: seq<string>)
    ensures parts != [] && forall part <- parts :: '"' !in part
  {
    if s == [] then [[]]
    else if s[0] == '"' then [[]] + Split(s[1..])
    else [[s[0]] + Split(s[1..])[0]] + Split(s[1..])[1..]
  }

  /** What stands between the quotes of the text of a role list: the names as escaped, and the commas. */
  function Pieces(roles: seq<string>): (parts: seq<string>)
    ensures forall part <- parts :: '"' !in part
  {
    if roles == [] then []
    else if |roles| == 1 then Split(Escaped(roles[0]))
    else Split(Escaped(roles[0])) + [","] + Pieces(roles[1..])
  }

  /** Each part after a quote. */
  function Opened(parts: seq<string>): string {
    if parts == [] then [] else "\"" + parts[0] + Opened(parts[1..])
  }

  lemma {:induction false} OpenedBoth(a: seq<string>, b: seq<string>)
    ensures Opened(a + b) == Opened(a) + Opened(b)
  {
    if a == [] {
      assert a + b == b;
    } else {
      OpenedBoth(a[1..], b);
      assert (a + b)[0] == a[0] && (a + b)[1..] == a[1..] + b;
      Regroup("\"" + a[0], Opened(a[1..]), Opened(b));
    }
  }

  lemma Regroup(a: string, b: string, c: string)
    ensures a + (b + c) == a + b + c
  {
  }

  lemma {:induction false} SplitOpened(s: string)
    ensures Opened(Split(s)) == "\"" + s
  {
    if s == [] {
      assert Opened([[]]) == "\"" + [] + Opened([[]][1..]);
    } else {
      SplitOpened(s[1..]);
      var rest := Split(s[1..]);
      assert s == [s[0]] + s[1..] && rest == [rest[0]] + rest[1..];
      if s[0] == '"' {
        assert ([[]] + rest)[1..] == rest;
        assert Opened([[]] + rest) == "\"" + [] + Opened(rest);
      } else {
        var first := [s[0]] + rest[0];
        assert ([first] + rest[1..])[1..] == rest[1..];
        assert Opened([first] + rest[1..]) == "\"" + first + Opened(rest[1..]);
        assert Opened(rest) == "\"" + rest[0] + Opened(rest[1..]);
        assert rest[0] + Opened(rest[1..]) == Opened(rest)[1..] == s[1..];
      }
    }
  }

  lemma {:induction false} JoinedOpened(roles: seq<string>)
    requires roles != []
    ensures Joined(roles) == Opened(Pieces(roles)) + "\""
  {
    SplitOpened(Escaped(roles[0]));
    if |roles| > 1 {
      JoinedOpened(roles[1..]);
      CommaOpened(Split(Escaped(roles[0])), Pieces(roles[1..]));
      assert Joined(roles) == Quoted(Escaped(roles[0])) + "," + Joined(roles[1..]);
      Regroup(Quoted(Escaped(roles[0])) + ",", Opened(Pieces(roles[1..])), "\"");
    }
  }

  lemma CommaOpened(a: seq<string>, b: seq<string>)
    ensures Opened(a + [","] + b) == Opened(a) + "\"" + "," + Opened(b)
  {
    OpenedBoth(a, [","]);
    OpenedBoth(a + [","], b);
    assert Opened([","]) == "\"" + "," + Opened([","][1..]);
    Regroup(Opened(a), "\"", ",");
  }

  // ------------------------------------------------------------------ what a search finds

  /** `r` is a run of consecutive parts with the quotes between them. */
  ghost predicate RunAt(parts: seq<string>, r: string, i: nat, j: nat) {
    i < j <= |parts| && Quoted(r) == Opened(parts[i..j]) + "\""
  }

  ghost predicate Run(parts: seq<string>, r: string) {
    exists i: nat, j: nat :: RunAt(parts, r, i, j)
  }

  lemma RunOccurs(parts: seq<string>, r: string, i: nat, j: nat)
    requires RunAt(parts, r, i, j)
    ensures Occurs(Opened(parts) + "\"", Quoted(r))
  {
    var before, run, after := Opened(parts[..i]), Opened(parts[i..j]), Opened(parts[j..]) + "\"";
    assert parts == parts[..i] + parts[i..j] + parts[j..];
    OpenedBoth(parts[..i], parts[i..j]);
    OpenedBoth(parts[..i] + parts[i..j], parts[j..]);
    assert after[0] == '"' && after == "\"" + after[1..];
    assert Opened(parts) + "\"" == before + Quoted(r) + after[1..];
    OccursBetween(before, Quoted(r), after[1..]);
  }

  lemma FirstPart(part: string, rest: string, r: string)
    requires '"' !in part && rest != [] && rest[0] == '"' && OccursAt(part + rest, r + "\"", 0)
    ensures |part| <= |r| && r[..|part|] == part
    ensures |part| < |r| ==> r[|part|] == '"'
  {
    forall k | 0 <= k < |part| ensures (part + rest)[k] == part[k] && part[k] != '"' {
      assert part[k] in part;
    }
    OccurrenceByCharacter(part + rest, r + "\"", 0);
    assert forall k :: 0 <= k <= |r| ==> (part + rest)[0 + k] == (r + "\"")[k];
    assert (part + rest)[0 + |r|] == '"' && (part + rest)[|part|] == rest[0];
  }

  lemma DropPart(part: string, rest: string, r: string, r': string)
    requires r == part + "\"" + r' && OccursAt(part + rest, r + "\"", 0)
    ensures OccursAt(rest, Quoted(r'), 0)
  {
    var n := |r| + 1;
    assert (part + rest)[..n] == r + "\"" == part + Quoted(r');
    assert rest[..n - |part|] == (part + rest)[..n][|part|..] == Quoted(r');
  }

  lemma DropQuote(text: string, r: string)
    requires OccursAt("\"" + text, Quoted(r), 0)
    ensures OccursAt(text, r + "\"", 0)
  {
    assert Quoted(r)[1..] == r + "\"";
    assert text[..|r| + 1] == ("\"" + text)[..|r| + 2][1..];
  }

  /** A quoted name at the start of the text ends where some part ends. */
  lemma {:induction false} StartIsRun(parts: seq<string>, r: string) returns (j: nat)
    requires (forall part <- parts :: '"' !in part) && OccursAt(Opened(parts) + "\"", Quoted(r), 0)
    ensures 0 < j <= |parts| && Quoted(r) == Opened(parts[..j]) + "\""
  {
    var part, rest := parts[0], Opened(parts[1..]) + "\"";
    Regroup("\"" + part, Opened(parts[1..]), "\"");
    Regroup("\"", part, rest);
    DropQuote(part + rest, r);
    FirstPart(part, rest, r);
    if |r| == |part| {
      j := 1;
      OneOpened(parts);
    } else {
      var r' := r[|part| + 1..];
      assert r == part + "\"" + r';
      DropPart(part, rest, r, r');
      var j' := StartIsRun(parts[1..], r');
      j := j' + 1;
      assert parts[..j][0] == part && parts[..j][1..] == parts[1..][..j'];
      assert Quoted(r) == "\"" + part + Quoted(r');
      Regroup("\"" + part, Opened(parts[1..][..j']), "\"");
    }
  }

  lemma OneOpened(parts: seq<string>)
    requires parts != []
    ensures Opened(parts[..1]) == "\"" + parts[0]
  {
    assert parts[..1] == [parts[0]] && Opened([parts[0]]) == "\"" + parts[0] + Opened([parts[0]][1..]);
  }

  lemma {:induction false} FoundIsRun(parts: seq<string>, r: string, p: nat)
    requires (forall part <- parts :: '"' !in part) && OccursAt(Opened(parts) + "\"", Quoted(r), p)
    ensures Run(parts, r)
  {
    var text, pattern := Opened(parts) + "\"", Quoted(r);
    if p == 0 {
      var j := StartIsRun(parts, r);
      assert parts[0..j] == parts[..j] && RunAt(parts, r, 0, j);
    } else {
      var part, rest := parts[0], Opened(parts[1..]) + "\"";
      var n := |part| + 1;
      assert text == "\"" + part + rest;
      forall k | 0 < k < n ensures text[k] != '"' {
        assert part in parts && part[k - 1] in part;
        assert text[k] == part[k - 1];
      }
      OccurrenceByCharacter(text, pattern, p);
      assert text[p + 0] == pattern[0] == '"';
      assert rest[p - n..p - n + |pattern|] == text[p..p + |pattern|];
      FoundIsRun(parts[1..], r, p - n);
      var i: nat, j: nat :| RunAt(parts[1..], r, i, j);
      assert parts[1..][i..j] == parts[i + 1..j + 1];
      assert RunAt(parts, r, i + 1, j + 1);
    }
  }

  lemma Unbracketed(body: string, r: string, p: nat)
    requires OccursAt("[" + body + "]", Quoted(r), p)
    ensures p > 0 && OccursAt(body, Quoted(r), p - 1)
  {
    var text, n := "[" + body + "]", |Quoted(r)|;
    OccurrenceByCharacter(text, Quoted(r), p);
    assert text[p + 0] == Quoted(r)[0] && text[p + (n - 1)] == Quoted(r)[n - 1];
    assert body[p - 1..p - 1 + n] == text[p..p + n];
  }

  lemma Bracketed(body: string, pattern: string)
    requires Occurs(body, pattern)
    ensures Occurs("[" + body + "]", pattern)
  {
    var p :| 0 <= p <= |body| && OccursAt(body, pattern, p);
    var text := "[" + body + "]";
    assert text[p + 1..p + 1 + |pattern|] == body[p..p + |pattern|];
    assert OccursAt(text, pattern, p + 1);
  }

  /** For every list and every name: a search finds exactly the runs of consecutive pieces. */
  lemma SearchFindsRuns(roles: seq<string>, r: string)
    ensures Occurs(Encode(Some(roles)), Quoted(r)) <==> Run(Pieces(roles), r)
  {
    var text, body, parts := Encode(Some(roles)), Joined(roles), Pieces(roles);
    if roles != [] {
      JoinedOpened(roles);
    }
    if Occurs(text, Quoted(r)) {
      var p :| 0 <= p <= |text| && OccursAt(text, Quoted(r), p);
      Unbracketed(body, r, p);
      FoundIsRun(parts, r, p - 1);
    }
    if Run(parts, r) {
      var i: nat, j: nat :| RunAt(parts, r, i, j);
      RunOccurs(parts, r, i, j);
      Bracketed(body, Quoted(r));
    }
  }

  lemma TwoParts(run: seq<string>, r: string)
    requires |run| >= 2 && Quoted(r) == Opened(run) + "\""
    ensures '"' in r
  {
    assert Opened(run) == "\"" + run[0] + Opened(run[1..]) && Opened(run[1..])[0] == '"';
    assert Quoted(r)[|run[0]| + 1] == '"' && |Opened(run[1..])| >= 1;
    assert r[|run[0]|] == '"';
  }

  lemma OnePart(part: string, r: string)
    ensures Quoted(r) == Opened([part]) + "\"" <==> r == part
  {
    assert Opened([part]) == "\"" + part + Opened([part][1..]);
    assert Quoted(r)[1..|r| + 1] == r && Quoted(part)[1..|part| + 1] == part;
  }

  /** A run without quotes is a single part. */
  lemma RunWithoutQuotes(parts: seq<string>, r: string)
    requires '"' !in r
    ensures Run(parts, r) <==> r in parts
  {
    if Run(parts, r) {
      var i: nat, j: nat :| RunAt(parts, r, i, j);
      if j > i + 1 {
        TwoParts(parts[i..j], r);
        assert false;
      }
      assert parts[i..j] == [parts[i]];
      OnePart(parts[i], r);
    }
    if r in parts {
      var i :| 0 <= i < |parts| && parts[i] == r;
      assert parts[i..i + 1] == [r];
      OnePart(r, r);
      assert RunAt(parts, r, i, i + 1);
    }
  }

  /** A name without quotes is found exactly when it is a piece of the text. */
  lemma SearchFindsPieces(roles: seq<string>, r: string)
    requires '"' !in r
    ensures Occurs(Encode(Some(roles)), Quoted(r)) <==> r in Pieces(roles)
  {
    SearchFindsRuns(roles, r);
    RunWithoutQuotes(Pieces(roles), r);
  }

  // ------------------------------------------------------------------ the pieces of a role list

  ghost predicate NoQuotes(roles: seq<string>) {
    forall i :: 0 <= i < |roles| ==> '"' !in roles[i]
  }

  lemma EscapedCharHasNoQuote(c: char)
    requires c != '"'
    ensures '"' !in EscapedChar(c)
  {
    assert '"' !in HEX;
  }

  lemma {:induction false} EscapedHasNoQuote(s: string)
    requires '"' !in s
    ensures '"' !in Escaped(s)
  {
    if s != [] {
      assert s[0] in s && forall c :: c in s[1..] ==> c in s;
      EscapedHasNoQuote(s[1..]);
      EscapedCharHasNoQuote(s[0]);
    }
  }

  lemma {:induction false} SplitWithoutQuotes(s: string)
    requires '"' !in s
    ensures Split(s) == [s]
  {
    if s != [] {
      assert s == [s[0]] + s[1..] && s[0] in s && forall c :: c in s[1..] ==> c in s;
      SplitWithoutQuotes(s[1..]);
    }
  }

  /** The text shows `r` as the escaped form of one of the roles. */
  ghost predicate Shown(roles: seq<string>, r: string) {
    exists i :: 0 <= i < |roles| && Escaped(roles[i]) == r
  }

  lemma ShownFirst(roles: seq<string>, r: string)
    requires roles != []
    ensures Shown(roles, r) <==> r == Escaped(roles[0]) || Shown(roles[1..], r)
  {
    if Shown(roles[1..], r) {
      var i :| 0 <= i < |roles[1..]| && Escaped(roles[1..][i]) == r;
      assert Escaped(roles[i + 1]) == r;
    }
    if Shown(roles, r) && r != Escaped(roles[0]) {
      var i :| 0 <= i < |roles| && Escaped(roles[i]) == r;
      assert Escaped(roles[1..][i - 1]) == r;
    }
  }

  /** Without quotes in the names the pieces are the escaped names and the commas between them. */
  lemma {:induction false} PiecesWithoutQuotes(roles: seq<string>, r: string)
    requires NoQuotes(roles)
    ensures r in Pieces(roles) <==> Shown(roles, r) || (r == "," && |roles| >= 2)
  {
    if roles != [] {
      EscapedHasNoQuote(roles[0]);
      SplitWithoutQuotes(Escaped(roles[0]));
      ShownFirst(roles, r);
      if |roles| > 1 {
        PiecesWithoutQuotes(roles[1..], r);
      }
    }
  }

  /**
    Among names without quotes, a name is found exactly when it is the escaped form of one of the
    roles, except that "," is also found between any two roles.
   */
  lemma RoleSearchFindsEscaped(roles: seq<string>, r: string)
    requires NoQuotes(roles) && '"' !in r
    ensures Occurs(Encode(Some(roles)), Quoted(r)) <==> Shown(roles, r) || (r == "," && |roles| >= 2)
  {
    SearchFindsPieces(roles, r);
    PiecesWithoutQuotes(roles, r);
  }

  lemma PlainHasNoQuotes(roles: seq<string>)
    requires PlainNames(roles)
    ensures NoQuotes(roles) && forall i :: 0 <= i < |roles| ==> Escaped(roles[i]) == roles[i]
  {
    forall i | 0 <= i < |roles| ensures Escaped(roles[i]) == roles[i] && '"' !in roles[i] {
      PlainIsItself(roles[i]);
      forall k | 0 <= k < |roles[i]| ensures roles[i][k] != '"' {
        assert IsPlain(roles[i][k]);
      }
    }
  }

  /** For names that JSON shows as themselves the search is by the role, the comma apart. */
  lemma RoleSearchIsExact(roles: seq<string>, r: string)
    requires PlainNames(roles) && '"' !in r
    ensures Occurs(Encode(Some(roles)), Quoted(r)) <==> r in roles || (r == "," && |roles| >= 2)
  {
    PlainHasNoQuotes(roles);
    RoleSearchFindsEscaped(roles, r);
    if r in roles {
      var i :| 0 <= i < |roles| && roles[i] == r;
      assert Escaped(roles[i]) == r;
    }
  }

  // ------------------------------------------------------------------ exactly when a search means what it says

  lemma {:induction false} EscapingOnlyGrows(s: string)
    ensures |Escaped(s)| >= |s| && (|Escaped(s)| == |s| ==> PlainName(s))
    ensures !PlainName(s) ==> '\\' in Escaped(s)
  {
    if s != [] {
      EscapingOnlyGrows(s[1..]);
      assert Escaped(s) == EscapedChar(s[0]) + Escaped(s[1..]);
      if PlainName(s[1..]) && IsPlain(s[0]) {
        assert forall i :: 0 < i < |s| ==> s[i] == s[1..][i - 1];
      }
      assert !IsPlain(s[0]) ==> EscapedChar(s[0])[0] == '\\';
    }
  }

  lemma {:induction false} SplitKeepsCharacters(s: string, c: char)
    requires c in s && c != '"'
    ensures exists part :: part in Split(s) && c in part
  {
    var rest := Split(s[1..]);
    if s[0] == c {
      assert Split(s)[0] == [c] + rest[0] && Split(s)[0] in Split(s);
    } else {
      assert c in s[1..];
      SplitKeepsCharacters(s[1..], c);
      var part :| part in rest && c in part;
      if s[0] != '"' && part == rest[0] {
        assert Split(s)[0] == [s[0]] + rest[0] && Split(s)[0] in Split(s);
      } else if s[0] != '"' {
        assert rest == [rest[0]] + rest[1..];
      }
    }
  }

  lemma {:induction false} PiecesOfRole(roles: seq<string>, i: nat, part: string)
    requires i < |roles| && part in Split(Escaped(roles[i]))
    ensures part in Pieces(roles)
  {
    if i > 0 {
      PiecesOfRole(roles[1..], i - 1, part);
    }
  }

  /** Every name without quotes, the comma apart, is found exactly when it is a role. */
  ghost predicate FindsExactly(roles: seq<string>) {
    forall r: string :: '"' !in r && r != "," ==> (Occurs(Encode(Some(roles)), Quoted(r)) <==> r in roles)
  }

  lemma PieceIsRole(roles: seq<string>, r: string)
    requires FindsExactly(roles) && r in Pieces(roles) && '\\' in r
    ensures r in roles
  {
    SearchFindsPieces(roles, r);
  }

  /** An escaped role would have to be a role again, and so would its escaped form, without end. */
  lemma {:induction false} NoEscapedRole(roles: seq<string>, r: string, longest: nat)
    requires FindsExactly(roles) && (forall s <- roles :: |s| <= longest)
    requires '"' !in r && '\\' in r
    ensures r !in roles
    decreases longest - |r|
  {
    if r in roles {
      var i :| 0 <= i < |roles| && roles[i] == r;
      var k :| 0 <= k < |r| && r[k] == '\\';
      EscapingOnlyGrows(r);
      EscapedHasNoQuote(r);
      SplitWithoutQuotes(Escaped(r));
      PiecesOfRole(roles, i, Escaped(r));
      assert !IsPlain(r[k]);
      PieceIsRole(roles, Escaped(r));
      NoEscapedRole(roles, Escaped(r), longest);
      assert false;
    }
  }

  function Longest(roles: seq<string>): (n: nat)
    ensures forall s <- roles :: |s| <= n
  {
    if roles == [] then 0
    else if |roles[0]| > Longest(roles[1..]) then |roles[0]|
    else Longest(roles[1..])
  }

  /** The search is exact, names with quotes and the comma apart, exactly for names that JSON shows as themselves. */
  lemma SearchIsExactIffPlain(roles: seq<string>)
    ensures FindsExactly(roles) <==> PlainNames(roles)
  {
    if PlainNames(roles) {
      forall r: string | '"' !in r && r != "," ensures Occurs(Encode(Some(roles)), Quoted(r)) <==> r in roles {
        RoleSearchIsExact(roles, r);
      }
    }
    if FindsExactly(roles) {
      forall i | 0 <= i < |roles| ensures PlainName(roles[i]) {
        if !PlainName(roles[i]) {
          EscapingOnlyGrows(roles[i]);
          SplitKeepsCharacters(Escaped(roles[i]), '\\');
          var part :| part in Split(Escaped(roles[i])) && '\\' in part;
          PiecesOfRole(roles, i, part);
          PieceIsRole(roles, part);
          NoEscapedRole(roles, part, Longest(roles));
          assert false;
        }
      }
    }
  }

  lemma {:induction false} PiecesOfPlain(roles: seq<string>)
    requires PlainNames(roles) && roles != []
    ensures Pieces(roles)[0] == roles[0] && (|roles| == 1 ==> |Pieces(roles)| == 1)
    ensures |roles| > 1 ==> |Pieces(roles)| >= 3 && Pieces(roles)[..3] == [roles[0], ",", roles[1]]
  {
    PlainHasNoQuotes(roles);
    SplitWithoutQuotes(roles[0]);
    if |roles| > 1 {
      PiecesOfPlain(roles[1..]);
      assert Pieces(roles) == [roles[0]] + [","] + Pieces(roles[1..]);
    }
  }

  lemma TwoNames(a: string, b: string)
    ensures Quoted(a + "\",\"" + b) == Opened([a] + [","] + [b]) + "\""
  {
    CommaOpened([a], [b]);
    OneOpened([a]);
    OneOpened([b]);
    assert [a][..1] == [a] && [b][..1] == [b];
  }

  /** Asking for two neighbouring roles with quotes and a comma between them finds the list. */
  lemma NeighboursAreFound(roles: seq<string>)
    requires PlainNames(roles) && |roles| >= 2
    ensures Occurs(Encode(Some(roles)), Quoted(roles[0] + "\",\"" + roles[1]))
    ensures roles[0] + "\",\"" + roles[1] !in roles
  {
    PlainHasNoQuotes(roles);
    PiecesOfPlain(roles);
    var r, parts := roles[0] + "\",\"" + roles[1], Pieces(roles);
    TwoNames(roles[0], roles[1]);
    assert parts[0..3] == [roles[0]] + [","] + [roles[1]];
    assert RunAt(parts, r, 0, 3);
    SearchFindsRuns(roles, r);
    assert r[|roles[0]|] == '"' && '"' in r;
  }

  /** For names with quotes too, the search is exact exactly for at most one role, shown as itself. */
  lemma SearchIsAlwaysExactIff(roles: seq<string>)
    ensures (forall r: string :: Occurs(Encode(Some(roles)), Quoted(r)) <==> r in roles) <==>
            PlainNames(roles) && |roles| <= 1
  {
    if forall r: string :: Occurs(Encode(Some(roles)), Quoted(r)) <==> r in roles {
      SearchIsExactIffPlain(roles);
      if |roles| >= 2 {
        NeighboursAreFound(roles);
        assert false;
      }
    }
    if PlainNames(roles) && |roles| <= 1 {
      forall r: string ensures Occurs(Encode(Some(roles)), Quoted(r)) <==> r in roles {
        SearchFindsRuns(roles, r);
        if |roles| == 1 {
          PiecesOfPlain(roles);
          OnlyRun(Pieces(roles), r);
        }
      }
    }
  }

  lemma OnlyRun(parts: seq<string>, r: string)
    requires |parts| == 1
    ensures Run(parts, r) <==> r == parts[0]
  {
    OnePart(parts[0], r);
    assert parts[0..1] == [parts[0]];
    if Run(parts, r) {
      var i: nat, j: nat :| RunAt(parts, r, i, j);
      assert i == 0 && j == 1;
    }
    if r == parts[0] {
      assert RunAt(parts, r, 0, 1);
    }
  }

  function Quotes(s: string): nat {
    if s == [] then 0 else (if s[0] == '"' then 1 else 0) + Quotes(s[1..])
  }

  lemma {:induction false} QuotesOfBoth(a: string, b: string)
    ensures Quotes(a + b) == Quotes(a) + Quotes(b)
  {
    if a == [] {
      assert a + b == b;
    } else {
      QuotesOfBoth(a[1..], b);
      assert (a + b)[0] == a[0] && (a + b)[1..] == a[1..] + b;
    }
  }

  lemma {:induction false} NoQuotesToCount(s: string)
    requires '"' !in s
    ensures Quotes(s) == 0
  {
    if s != [] {
      assert s[0] in s && forall c :: c in s[1..] ==> c in s;
      NoQuotesToCount(s[1..]);
    }
  }

  lemma {:induction false} SplitAtEachQuote(s: string)
    ensures |Split(s)| == Quotes(s) + 1
  {
    if s != [] {
      SplitAtEachQuote(s[1..]);
    }
  }

  lemma {:induction false} OpenedQuotes(parts: seq<string>)
    requires forall part <- parts :: '"' !in part
    ensures Quotes(Opened(parts)) == |parts|
  {
    if parts != [] {
      OpenedQuotes(parts[1..]);
      QuotesOfBoth("\"" + parts[0], Opened(parts[1..]));
      NoQuotesToCount(parts[0]);
      assert ("\"" + parts[0])[1..] == parts[0];
    }
  }

  lemma EscapedCharQuotes(c: char)
    ensures Quotes(EscapedChar(c)) == if c == '"' then 1 else 0
  {
    if c == '"' {
      assert "\\\""[1..] == "\"" && "\""[1..] == "";
    } else {
      EscapedCharHasNoQuote(c);
      NoQuotesToCount(EscapedChar(c));
    }
  }

  lemma {:induction false} EscapingKeepsQuotes(s: string)
    ensures Quotes(Escaped(s)) == Quotes(s)
  {
    if s != [] {
      EscapingKeepsQuotes(s[1..]);
      EscapedCharQuotes(s[0]);
      QuotesOfBoth(EscapedChar(s[0]), Escaped(s[1..]));
    }
  }

  lemma QuotedQuotes(s: string)
    ensures Quotes(Quoted(s)) == Quotes(s) + 2
  {
    QuotesOfBoth("\"" + s, "\"");
    assert ("\"" + s)[1..] == s && "\""[1..] == "";
  }

  lemma WholeRun(text: string, r: string, i: nat, j: nat)
    requires RunAt(Split(text), r, i, j) && Quotes(r) == Quotes(text)
    ensures r == text
  {
    var parts := Split(text);
    OpenedQuotes(parts[i..j]);
    QuotesOfBoth(Opened(parts[i..j]), "\"");
    QuotedQuotes(r);
    assert "\""[1..] == "" && Quotes("\"") == 1;
    SplitAtEachQuote(text);
    assert parts[i..j] == parts;
    SplitOpened(text);
    assert Quoted(r)[1..|r| + 1] == r && Quoted(text)[1..|text| + 1] == text;
  }

  /** A single role is found under its own name exactly when JSON shows it as itself. */
  lemma LoneRoleIsFoundIffPlain(r: string)
    ensures Occurs(Encode(Some([r])), Quoted(r)) <==> PlainName(r)
  {
    var text := Escaped(r);
    SearchFindsRuns([r], r);
    if PlainName(r) {
      PlainIsItself(r);
      SplitOpened(text);
      assert Split(text)[0..|Split(text)|] == Split(text) && RunAt(Split(text), r, 0, |Split(text)|);
    }
    if Run(Split(text), r) {
      var i: nat, j: nat :| RunAt(Split(text), r, i, j);
      EscapingKeepsQuotes(r);
      WholeRun(text, r, i, j);
      EscapingOnlyGrows(r);
    }
  }

  /** An instance: a stored role with a quote can be found under a name that is not a role. */
  lemma QuotedRoleIsMisread()
    ensures "r" !in ["x\"r"] && Occurs(Encode(Some(["x\"r"])), Quoted("r"))
    ensures !FindsExactly(["x\"r"])
  {
    assert Escaped("r") == "r";
    assert Escaped("\"r") == "\\\"r" by { assert "\"r"[1..] == "r"; }
    assert Escaped("x\"r") == "x\\\"r" by { assert "x\"r"[1..] == "\"r"; }
    SplitOfExample();
    SearchFindsPieces(["x\"r"], "r");
  }

  lemma SplitOfExample()
    ensures "r" in Split("x\\\"r")
  {
    SplitWithoutQuotes("r");
    assert "x\\\"r"[1..] == "\\\"r" && "\\\"r"[1..] == "\"r" && "\"r"[1..] == "r";
    assert Split("\"r")[1..] == Split("r");
    assert Split("\\\"r")[1..] == Split("\"r")[1..];
    assert Split("x\\\"r")[1..] == Split("\\\"r")[1..] == ["r"];
    assert "r" in Split("x\\\"r")[1..];
  }
}
