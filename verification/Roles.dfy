/**
  The roles of a node are stored as the JSON text of a sorted list of names.
 */
module Roles {
  import opened Wrappers

  // ------------------------------------------------------------------ sorting names

  /** Lexicographic order. */
  predicate Below(a: string, b: string) {
    a == [] || (b != [] && (a[0] < b[0] || (a[0] == b[0] && Below(a[1..], b[1..]))))
  }

  lemma {:induction false} BelowIsTotal(a: string, b: string)
    ensures Below(a, b) || Below(b, a)
    ensures Below(a, b) && Below(b, a) ==> a == b
  {
    if a != [] && b != [] && a[0] == b[0] {
      BelowIsTotal(a[1..], b[1..]);
    }
  }

  lemma {:induction false} BelowIsTransitive(a: string, b: string, c: string)
    requires Below(a, b) && Below(b, c)
    ensures Below(a, c)
  {
    if a != [] && a[0] == b[0] && b[0] == c[0] {
      BelowIsTransitive(a[1..], b[1..], c[1..]);
    }
  }

  /** The order of strings by their first difference. */
  lemma {:induction false} BelowIsLexicographic(a: string, b: string)
    ensures Below(a, b) <==> exists i :: DiffersAt(a, b, i) && (i == |a| || (i < |b| && a[i] < b[i]))
  {
    if a == [] {
      assert DiffersAt(a, b, 0);
    } else if b == [] || a[0] != b[0] {
      assert DiffersAt(a, b, 0);
    } else {
      BelowIsLexicographic(a[1..], b[1..]);
      if Below(a, b) {
        var i :| DiffersAt(a[1..], b[1..], i) && (i == |a[1..]| || (i < |b[1..]| && a[1..][i] < b[1..][i]));
        assert forall n :: 0 < n < i + 1 ==> a[n] == a[1..][n - 1] && b[n] == b[1..][n - 1];
        assert DiffersAt(a, b, i + 1);
      }
      if exists i :: DiffersAt(a, b, i) && (i == |a| || (i < |b| && a[i] < b[i])) {
        var i :| DiffersAt(a, b, i) && (i == |a| || (i < |b| && a[i] < b[i]));
        assert i > 0;
        assert DiffersAt(a[1..], b[1..], i - 1);
      }
    }
  }

  /** The strings agree up to `i`, where they differ or one of them ends. */
  ghost predicate DiffersAt(a: string, b: string, i: int) {
    && 0 <= i <= |a| && i <= |b| && (forall n :: 0 <= n < i ==> a[n] == b[n])
    && (i < |a| && i < |b| ==> a[i] != b[i])
  }

  ghost predicate IsSorted(s: seq<string>) {
    forall i, j :: 0 <= i < j < |s| ==> Below(s[i], s[j])
  }

  function Inserted(x: string, s: seq<string>): seq<string> {
    if s == [] || Below(x, s[0]) then [x] + s else [s[0]] + Inserted(x, s[1..])
  }

  function Sorted(s: seq<string>): seq<string> {
    if s == [] then [] else Inserted(s[0], Sorted(s[1..]))
  }

  lemma {:induction false} InsertedIsSorted(x: string, s: seq<string>)
    requires IsSorted(s)
    ensures IsSorted(Inserted(x, s)) && multiset(Inserted(x, s)) == multiset(s) + multiset{x}
  {
    if s == [] {
    } else if Below(x, s[0]) {
      forall j | 0 <= j < |s| ensures Below(x, s[j]) {
        if j > 0 {
          BelowIsTransitive(x, s[0], s[j]);
        }
      }
    } else {
      BelowIsTotal(x, s[0]);
      var rest := Inserted(x, s[1..]);
      InsertedIsSorted(x, s[1..]);
      assert s == [s[0]] + s[1..];
      forall j | 0 <= j < |rest| ensures Below(s[0], rest[j]) {
        assert rest[j] in multiset(rest);
        if rest[j] != x {
          assert rest[j] in s[1..];
        }
      }
    }
  }

  /** Sorting gives a sorted permutation. */
  lemma {:induction false} SortedIsSorted(s: seq<string>)
    ensures IsSorted(Sorted(s)) && multiset(Sorted(s)) == multiset(s)
  {
    if s != [] {
      SortedIsSorted(s[1..]);
      InsertedIsSorted(s[0], Sorted(s[1..]));
      assert s == [s[0]] + s[1..];
    }
  }

  lemma {:induction false} SortedOfSorted(s: seq<string>)
    requires IsSorted(s)
    ensures Sorted(s) == s
  {
    if s != [] {
      SortedOfSorted(s[1..]);
      if |s| > 1 {
        assert Below(s[0], s[1]);
      }
    }
  }

  /** sort.Strings, a library call of which only the result is modelled. */
  method SortStrings(a: array<string>)
    modifies a
    ensures a[..] == Sorted(old(a[..]))
  {
    var s := Sorted(a[..]);
    SortedIsSorted(a[..]);
    assert |s| == |multiset(s)| == |multiset(a[..])| == a.Length;
    for i := 0 to a.Length
      invariant a[..i] == s[..i]
    {
      a[i] := s[i];
    }
    assert a[..] == a[..a.Length] && s[..a.Length] == s;
  }

  // ------------------------------------------------------------------ JSON text

  const HEX := "0123456789abcdef"

  function Hex4(n: nat): string
    requires n < 0x10000
  {
    [HEX[n / 0x1000], HEX[n / 0x100 % 16], HEX[n / 16 % 16], HEX[n % 16]]
  }

  /** A character that JSON text shows as itself. */
  predicate IsPlain(c: char) {
    ' ' <= c && c != '"' && c != '\\' && c != '<' && c != '>' && c != '&' && c != '\U{2028}' && c != '\U{2029}'
  }

  function EscapedChar(c: char): string {
    if c == '"' then "\\\""
    else if c == '\\' then "\\\\"
    else if c == '\n' then "\\n"
    else if c == '\r' then "\\r"
    else if c == '\t' then "\\t"
    else if c as int == 8 then "\\b"
    else if c as int == 12 then "\\f"
    else if IsPlain(c) then [c]
    else if c as int < 0x10000 then "\\u" + Hex4(c as int)
    else [c]
  }

  function Escaped(s: string): string {
    if s == [] then [] else EscapedChar(s[0]) + Escaped(s[1..])
  }

  function Quoted(s: string): string { "\"" + s + "\"" }

  function Joined(roles: seq<string>): string {
    if roles == [] then []
    else if |roles| == 1 then Quoted(Escaped(roles[0]))
    else Quoted(Escaped(roles[0])) + "," + Joined(roles[1..])
  }

  /** json.Marshal of a list of strings, where None is the nil slice. */
  function Encode(roles: Option<seq<string>>): string {
    match roles
    case None => "null"
    case Some(rs) => "[" + Joined(rs) + "]"
  }

  ghost predicate PlainName(s: string) {
    forall i :: 0 <= i < |s| ==> IsPlain(s[i])
  }

  ghost predicate PlainNames(roles: seq<string>) {
    forall i :: 0 <= i < |roles| ==> PlainName(roles[i])
  }

  lemma {:induction false} PlainIsItself(s: string)
    requires PlainName(s)
    ensures Escaped(s) == s
  {
    if s != [] {
      PlainIsItself(s[1..]);
    }
  }

  // ------------------------------------------------------------------ reading the text back

  function HexValue(c: char): (v: Option<nat>)
    ensures v.Some? ==> v.value < 16
  {
    if '0' <= c <= '9' then Some(c as int - '0' as int)
    else if 'a' <= c <= 'f' then Some(c as int - 'a' as int + 10)
    else if 'A' <= c <= 'F' then Some(c as int - 'A' as int + 10)
    else None
  }

  function FromHex4(a: char, b: char, c: char, d: char): (v: Option<nat>)
    ensures v.Some? ==> v.value < 0x1_0000
  {
    if HexValue(a).Some? && HexValue(b).Some? && HexValue(c).Some? && HexValue(d).Some?
    then Some(HexValue(a).value * 0x1000 + HexValue(b).value * 0x100 + HexValue(c).value * 16 + HexValue(d).value)
    else None
  }

  /** The payload of the low surrogate that the text starts with. */
  function LowSurrogate(text: string): (r: Option<nat>)
    ensures r.Some? ==> |text| >= 6 && r.value < 0x400
  {
    if |text| < 6 || text[0] != '\\' || text[1] != 'u' then None
    else
      match FromHex4(text[2], text[3], text[4], text[5])
      case None => None
      case Some(w) => if 0xDC00 <= w < 0xE000 then Some(w - 0xDC00) else None
  }

  /** The first character of a JSON string body, and the text after it; a lone surrogate reads as U+FFFD. */
  function ReadChar(text: string): (r: Option<(char, string)>)
    requires text != []
    ensures r.Some? ==> |r.value.1| < |text|
  {
    if text[0] != '\\' then (if text[0] < ' ' then None else Some((text[0], text[1..])))
    else if |text| < 2 then None
    else if text[1] == 'u' then
      if |text| < 6 then None
      else
        match FromHex4(text[2], text[3], text[4], text[5])
        case None => None
        case Some(v) =>
          if v < 0xD800 || 0xE000 <= v then Some((v as char, text[6..]))
          else if v < 0xDC00 && LowSurrogate(text[6..]).Some? then
            Some(((0x1_0000 + (v - 0xD800) * 0x400 + LowSurrogate(text[6..]).value) as char, text[12..]))
          else Some(('\U{FFFD}', text[6..]))
    else
      match text[1]
      case '"' => Some(('"', text[2..]))
      case '\\' => Some(('\\', text[2..]))
      case '/' => Some(('/', text[2..]))
      case 'b' => Some((8 as char, text[2..]))
      case 'f' => Some((12 as char, text[2..]))
      case 'n' => Some(('\n', text[2..]))
      case 'r' => Some(('\r', text[2..]))
      case 't' => Some(('\t', text[2..]))
      case _ => None
  }

  /** A JSON string body up to its closing quote, and the text after it. */
  function ReadString(text: string): (r: Option<(string, string)>)
    ensures r.Some? ==> |r.value.1| < |text|
    decreases |text|
  {
    if text == [] then None
    else if text[0] == '"' then Some(([], text[1..]))
    else
      match ReadChar(text)
      case None => None
      case Some((c, rest)) =>
        match ReadString(rest)
        case None => None
        case Some((s, after)) => Some(([c] + s, after))
  }

  predicate IsSpace(c: char) {
    c == ' ' || c == '\t' || c == '\r' || c == '\n'
  }

  /** The text after leading white space. */
  function Trimmed(text: string): (rest: string)
    ensures |rest| <= |text|
  {
    if text != [] && IsSpace(text[0]) then Trimmed(text[1..]) else text
  }

  /** An item of a list of strings, and the text after it; null reads as the empty string. */
  function ReadItem(text: string): (r: Option<(string, string)>)
    ensures r.Some? ==> |r.value.1| < |text|
  {
    if text == [] then None
    else if text[0] == '"' then ReadString(text[1..])
    else if |text| >= 4 && text[..4] == "null" then Some(("", text[4..]))
    else None
  }

  /** The items of a JSON list from its first one on, up to the end of the text. */
  function ReadItems(text: string): Option<seq<string>>
    decreases |text|
  {
    match ReadItem(text)
    case None => None
    case Some((s, after)) =>
      var rest := Trimmed(after);
      if rest == [] then None
      else if rest[0] == ']' then (if Trimmed(rest[1..]) == [] then Some([s]) else None)
      else if rest[0] != ',' then None
      else
        match ReadItems(Trimmed(rest[1..]))
        case None => None
        case Some(items) => Some([s] + items)
  }

  /** json.Unmarshal into a list of strings; `null` leaves the nil slice. */
  function Decode(text: string): Option<Option<seq<string>>> {
    var t := Trimmed(text);
    if t == [] then None
    else if t[0] == '[' then
      var items := Trimmed(t[1..]);
      if items != [] && items[0] == ']' then (if Trimmed(items[1..]) == [] then Some(Some([])) else None)
      else
        match ReadItems(items)
        case None => None
        case Some(roles) => Some(Some(roles))
    else if |t| >= 4 && t[..4] == "null" && Trimmed(t[4..]) == [] then Some(None)
    else None
  }

  lemma HexDigitReadsBack(d: nat)
    requires d < 16
    ensures HexValue(HEX[d]) == Some(d)
  {
    if d < 10 {
      assert HEX[d] as int == '0' as int + d;
    } else {
      assert HEX[d] as int == 'a' as int + (d - 10);
    }
  }

  lemma HexDigits(n: nat)
    requires n < 0x10000
    ensures n == n / 0x1000 * 0x1000 + n / 0x100 % 16 * 0x100 + n / 16 % 16 * 16 + n % 16
  {
    assert n / 0x100 == n / 16 / 16 && n / 0x1000 == n / 16 / 16 / 16;
  }

  lemma Hex4ReadsBack(n: nat)
    requires n < 0x10000
    ensures FromHex4(Hex4(n)[0], Hex4(n)[1], Hex4(n)[2], Hex4(n)[3]) == Some(n)
  {
    var a, b, c, d := n / 0x1000, n / 0x100 % 16, n / 16 % 16, n % 16;
    HexDigits(n);
    HexDigitReadsBack(a);
    HexDigitReadsBack(b);
    HexDigitReadsBack(c);
    HexDigitReadsBack(d);
    assert Hex4(n)[0] == HEX[a] && Hex4(n)[1] == HEX[b] && Hex4(n)[2] == HEX[c] && Hex4(n)[3] == HEX[d];
  }

  lemma CharReadsBack(c: char, rest: string)
    ensures ReadChar(EscapedChar(c) + rest) == Some((c, rest)) && EscapedChar(c)[0] != '"'
  {
    var text := EscapedChar(c) + rest;
    if |EscapedChar(c)| == 1 {
      assert text[1..] == rest;
    } else if |EscapedChar(c)| == 2 {
      assert text[2..] == rest;
    } else {
      Hex4ReadsBack(c as int);
      assert text[6..] == rest;
      assert text[2] == Hex4(c as int)[0] && text[3] == Hex4(c as int)[1];
      assert text[4] == Hex4(c as int)[2] && text[5] == Hex4(c as int)[3];
    }
  }

  lemma NextCharReadsBack(text: string, c: char, tail: string, s: string, rest: string)
    requires text == EscapedChar(c) + tail && ReadString(tail) == Some((s, rest))
    ensures ReadString(text) == Some(([c] + s, rest))
  {
    CharReadsBack(c, tail);
    assert text[0] == EscapedChar(c)[0];
  }

  lemma {:induction false} StringReadsBack(s: string, rest: string)
    ensures ReadString(Escaped(s) + "\"" + rest) == Some((s, rest))
  {
    var text := Escaped(s) + "\"" + rest;
    if s == [] {
      assert text[0] == '"' && text[1..] == rest;
    } else {
      var tail := Escaped(s[1..]) + "\"" + rest;
      StringReadsBack(s[1..], rest);
      assert text == EscapedChar(s[0]) + tail;
      NextCharReadsBack(text, s[0], tail, s[1..], rest);
      assert s == [s[0]] + s[1..];
    }
  }

  lemma LastItemReadsBack(text: string, s: string)
    requires text == Quoted(Escaped(s)) + "]"
    ensures ReadItems(text) == Some([s])
  {
    StringReadsBack(s, "]");
    QuotedThen(Escaped(s), "]");
    assert ReadItem(text) == Some((s, "]")) && Trimmed("]") == "]" && "]"[1..] == "";
  }

  lemma QuotedThen(s: string, rest: string)
    ensures var text := Quoted(s) + rest; text != [] && text[0] == '"' && text[1..] == s + "\"" + rest
  {
  }

  lemma CommaThen(rest: string)
    ensures var text := "," + rest; text[0] == ',' && text[1..] == rest
  {
  }

  lemma ItemReadsBack(text: string, s: string, rest: string)
    requires text == Quoted(Escaped(s)) + ("," + rest) && ReadItems(rest).Some? && rest != [] && rest[0] == '"'
    ensures ReadItems(text) == Some([s] + ReadItems(rest).value)
  {
    QuotedThen(Escaped(s), "," + rest);
    CommaThen(rest);
    StringReadsBack(s, "," + rest);
    ItemThenRest(text, s, "," + rest);
  }

  lemma ItemThenRest(text: string, s: string, after: string)
    requires text != [] && text[0] == '"' && ReadString(text[1..]) == Some((s, after))
    requires |after| > 1 && after[0] == ',' && after[1] == '"' && ReadItems(after[1..]).Some?
    ensures ReadItems(text) == Some([s] + ReadItems(after[1..]).value)
  {
    assert Trimmed(after) == after && Trimmed(after[1..]) == after[1..];
  }

  lemma CommaBetween(a: string, b: string, c: string)
    ensures a + "," + b + c == a + ("," + (b + c))
  {
  }

  lemma JoinedThen(roles: seq<string>, tail: string)
    requires |roles| > 1
    ensures Joined(roles) + tail == Quoted(Escaped(roles[0])) + ("," + (Joined(roles[1..]) + tail))
  {
    CommaBetween(Quoted(Escaped(roles[0])), Joined(roles[1..]), tail);
    assert Joined(roles) == Quoted(Escaped(roles[0])) + "," + Joined(roles[1..]);
  }

  lemma {:induction false} ItemsReadBack(roles: seq<string>)
    requires roles != []
    ensures ReadItems(Joined(roles) + "]") == Some(roles)
  {
    if |roles| == 1 {
      LastItemReadsBack(Joined(roles) + "]", roles[0]);
      assert roles == [roles[0]];
    } else {
      var rest := Joined(roles[1..]) + "]";
      ItemsReadBack(roles[1..]);
      JoinedStartsWithQuote(roles[1..]);
      JoinedThen(roles, "]");
      ItemReadsBack(Joined(roles) + "]", roles[0], rest);
      assert roles == [roles[0]] + roles[1..];
    }
  }

  /** Reading back what was written gives the same list, whatever the names. */
  lemma DecodeEncode(roles: Option<seq<string>>)
    ensures Decode(Encode(roles)) == Some(roles)
  {
    if roles.Some? {
      if roles.value == [] {
        assert Encode(roles) == "[]" && Trimmed("[]") == "[]" && "[]"[1..] == "]" && Trimmed("]") == "]" && "]"[1..] == "";
      } else {
        ItemsReadBack(roles.value);
        JoinedStartsWithQuote(roles.value);
        assert Encode(roles)[1..] == Joined(roles.value) + "]";
        assert Encode(roles)[0] == '[' && Encode(roles)[1] == '"';
        assert Trimmed(Encode(roles)) == Encode(roles) && Trimmed(Encode(roles)[1..]) == Encode(roles)[1..];
      }
    }
  }

  /** `e` after a backslash stands for `c`. */
  ghost predicate Escapes(e: char, c: char) {
    || (e == c && (c == '"' || c == '\\' || c == '/'))
    || (e == 'b' && c as int == 8) || (e == 't' && c as int == 9) || (e == 'n' && c as int == 10)
    || (e == 'f' && c as int == 12) || (e == 'r' && c as int == 13)
  }

  lemma EscapeReads(e: char, c: char, rest: string)
    requires Escapes(e, c)
    ensures ReadChar("\\" + [e] + rest) == Some((c, rest))
  {
    assert ("\\" + [e] + rest)[2..] == rest;
  }

  lemma SpaceIsSkipped(c: char, rest: string)
    ensures c == ' ' || c == '\t' || c == '\n' || c == '\r' ==> Trimmed([c] + rest) == Trimmed(rest)
  {
    assert ([c] + rest)[1..] == rest;
  }

  lemma NullItemReads(rest: string)
    ensures ReadItem("null" + rest) == Some(("", rest))
  {
    assert ("null" + rest)[..4] == "null" && ("null" + rest)[4..] == rest;
  }

  /** Sorts the caller's slice in place and returns its JSON text. */
  method RoleToStr(role: array?<string>) returns (text: string)
    modifies role
    ensures role != null ==> role[..] == Sorted(old(role[..])) && text == Encode(Some(role[..]))
    ensures role == null ==> text == Encode(None)
  {
    if role == null {
      return Encode(None);
    }
    SortStrings(role);
    text := Encode(Some(role[..]));
  }

  method RoleFromStr(text: string) returns (role: Option<Option<seq<string>>>)
    ensures role == FromStr(text)
    ensures role.Some? <==> Decode(text).Some?
    ensures role.Some? ==> (role.value.Some? <==> Decode(text).value.Some?)
    ensures role.Some? && role.value.Some? ==>
              IsSorted(role.value.value) && multiset(role.value.value) == multiset(Decode(text).value.value)
  {
    var read := Decode(text);
    if read.None? || read.value.None? {
      return read;
    }
    var roles := read.value.value;
    var a := new string[|roles|](i requires 0 <= i < |roles| => roles[i]);
    assert a[..] == roles;
    SortedIsSorted(roles);
    SortStrings(a);
    role := Some(Some(a[..]));
  }

  /** The roles of a stored text; None when it is not a list of strings. */
  function FromStr(text: string): Option<Option<seq<string>>> {
    match Decode(text)
    case None => None
    case Some(None) => Some(None)
    case Some(Some(roles)) => Some(Some(Sorted(roles)))
  }

  /** Reading what was stored for a role list gives its sorted permutation. */
  lemma StoredRolesAreSortedPermutation(roles: seq<string>)
    ensures var back := FromStr(Encode(Some(Sorted(roles))));
            && back == Some(Some(Sorted(roles)))
            && IsSorted(back.value.value) && multiset(back.value.value) == multiset(roles)
  {
    SortedIsSorted(roles);
    DecodeEncode(Some(Sorted(roles)));
    SortedOfSorted(Sorted(roles));
  }

  lemma JoinedStartsWithQuote(roles: seq<string>)
    requires roles != []
    ensures Joined(roles) != [] && Joined(roles)[0] == '"'
  {
  }
}
