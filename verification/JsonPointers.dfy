/**
 Pointers into JSON values (RFC 6901): escaping of keys, joining and splitting of paths, and decimal array
 indices. The round trips hold for every key, empty keys and keys made of '~' and '/' included.
*/
module JsonPointers {
  import opened Wrappers

  // ---------- the string functions the pointers are built from ----------

  /** Every c replaced by a string. */
  function ReplaceChar(s: string, c: char, into: string): string {
    if s == "" then ""
    else (if s[0] == c then into else [s[0]]) + ReplaceChar(s[1..], c, into)
  }

  /** Every occurrence of the two characters a b, left to right, replaced by one character. */
  function ReplacePair(s: string, a: char, b: char, into: char): string {
    if s == "" then ""
    else if |s| >= 2 && s[0] == a && s[1] == b then [into] + ReplacePair(s[2..], a, b, into)
    else [s[0]] + ReplacePair(s[1..], a, b, into)
  }

  /** The pieces between the separators: always at least one. */
  function Split(s: string, sep: char): (r: seq<string>)
    ensures r != []
  {
    if s == "" then [""]
    else
      var rest := Split(s[1..], sep);
      if s[0] == sep then [""] + rest else [[s[0]] + rest[0]] + rest[1..]
  }

  // ---------- escaping ----------

  function EscapePointer(part: string): string {
    ReplaceChar(ReplaceChar(part, '~', "~0"), '/', "~1")
  }

  function UnescapePointer(segment: string): string {
    ReplacePair(ReplacePair(segment, '~', '1', '/'), '~', '0', '~')
  }

  lemma {:induction false} EscapeStep(s: string)
    requires s != ""
    ensures EscapePointer(s) ==
            (if s[0] == '~' then "~0" else if s[0] == '/' then "~1" else [s[0]]) + EscapePointer(s[1..])
  {
    var head := if s[0] == '~' then "~0" else [s[0]];
    var rest := ReplaceChar(s[1..], '~', "~0");
    if s[0] == '~' {
      assert (head + rest)[1..] == "0" + rest && ("0" + rest)[1..] == rest;
      assert ReplaceChar("0" + rest, '/', "~1") == "0" + ReplaceChar(rest, '/', "~1");
      assert ReplaceChar(head + rest, '/', "~1") == "~" + ("0" + ReplaceChar(rest, '/', "~1"));
      assert "~" + ("0" + ReplaceChar(rest, '/', "~1")) == "~0" + ReplaceChar(rest, '/', "~1");
    } else {
      assert (head + rest)[1..] == rest;
    }
  }

  /** Undoing "~1" first leaves exactly the keys with their tildes escaped. */
  lemma {:induction false} SlashesBack(s: string)
    ensures ReplacePair(EscapePointer(s), '~', '1', '/') == ReplaceChar(s, '~', "~0")
  {
    if s != "" {
      EscapeStep(s);
      SlashesBack(s[1..]);
      var rest := EscapePointer(s[1..]);
      if s[0] == '~' {
        var e := "~0" + rest;
        assert e[1..] == "0" + rest && e[1..][1..] == rest;
        assert ReplacePair(e[1..], '~', '1', '/') == "0" + ReplacePair(rest, '~', '1', '/');
        assert ReplacePair(e, '~', '1', '/') == "~" + ReplacePair(e[1..], '~', '1', '/');
        assert "~" + ("0" + ReplacePair(rest, '~', '1', '/')) == "~0" + ReplacePair(rest, '~', '1', '/');
      } else if s[0] == '/' {
        assert ("~1" + rest)[2..] == rest;
      } else {
        assert ([s[0]] + rest)[1..] == rest;
      }
    }
  }

  lemma {:induction false} TildesBack(s: string)
    ensures ReplacePair(ReplaceChar(s, '~', "~0"), '~', '0', '~') == s
  {
    if s != "" {
      TildesBack(s[1..]);
      var rest := ReplaceChar(s[1..], '~', "~0");
      if s[0] == '~' {
        assert ("~0" + rest)[2..] == rest;
      } else {
        assert ([s[0]] + rest)[1..] == rest;
      }
    }
  }

  /** Section 4 of RFC 6901: unescaping undoes escaping, for every key. */
  lemma {:induction false} UnescapeEscape(part: string)
    ensures UnescapePointer(EscapePointer(part)) == part
  {
    SlashesBack(part);
    TildesBack(part);
  }

  /** Section 4 of RFC 6901 from left to right: "~1" is a slash, "~0" a tilde, anything else itself. */
  function Unescaped(s: string): string {
    if s == "" then ""
    else if |s| >= 2 && s[0] == '~' && s[1] == '1' then "/" + Unescaped(s[2..])
    else if |s| >= 2 && s[0] == '~' && s[1] == '0' then "~" + Unescaped(s[2..])
    else [s[0]] + Unescaped(s[1..])
  }

  /** Two replacements one after the other do just that, for every text. */
  lemma {:induction false} UnescapesInOnePass(s: string)
    ensures UnescapePointer(s) == Unescaped(s)
  {
    if |s| >= 2 && s[0] == '~' && (s[1] == '1' || s[1] == '0') {
      UnescapesInOnePass(s[2..]);
      var rest := ReplacePair(s[2..], '~', '1', '/');
      if s[1] == '1' {
        assert (['/'] + rest)[1..] == rest;
      } else {
        var tail := s[1..];
        assert tail[1..] == s[2..] && ReplacePair(tail, '~', '1', '/') == ['0'] + rest;
        var whole := ['~'] + (['0'] + rest);
        assert ReplacePair(s, '~', '1', '/') == whole && whole[2..] == rest;
        assert whole[1] == '0';
      }
    } else if s != "" {
      UnescapesInOnePass(s[1..]);
      var rest := ReplacePair(s[1..], '~', '1', '/');
      var whole := [s[0]] + rest;
      assert whole[1..] == rest && ReplacePair(s, '~', '1', '/') == whole;
      StartKept(s[1..]);
    }
  }

  /** What is replaced first leaves no new tilde and zero behind. */
  lemma {:induction false} StartKept(s: string)
    ensures var r := ReplacePair(s, '~', '1', '/'); r != "" && r[0] == '0' ==> s != "" && s[0] == '0'
  {
  }

  lemma {:induction false} EscapedHasNoSlash(part: string)
    ensures '/' !in EscapePointer(part)
  {
    if part != "" {
      EscapeStep(part);
      EscapedHasNoSlash(part[1..]);
    }
  }

  lemma {:induction false} EscapePlain(part: string)
    requires '~' !in part && '/' !in part
    ensures EscapePointer(part) == part
  {
    if part != "" {
      EscapeStep(part);
      EscapePlain(part[1..]);
    }
  }

  // ---------- joining and splitting ----------

  /** The path of a list of keys: one slash and one escaped key each. */
  function Render(parts: seq<string>): string {
    if parts == [] then "" else Render(parts[..|parts| - 1]) + "/" + EscapePointer(parts[|parts| - 1])
  }

  lemma {:induction false} RenderSnoc(parts: seq<string>, part: string)
    ensures Render(parts + [part]) == Render(parts) + "/" + EscapePointer(part)
  {
    assert (parts + [part])[..|parts|] == parts;
  }

  function UnescapeAll(segments: seq<string>): (r: seq<string>)
    ensures |r| == |segments| && forall i :: 0 <= i < |r| ==> r[i] == UnescapePointer(segments[i])
  {
    seq(|segments|, i requires 0 <= i < |segments| => UnescapePointer(segments[i]))
  }

  lemma {:induction false} SplitPlain(s: string, sep: char)
    requires sep !in s
    ensures Split(s, sep) == [s]
  {
    if s != "" {
      SplitPlain(s[1..], sep);
      assert [s[0]] + s[1..] == s;
    }
  }

  lemma {:induction false} SplitJoin(s: string, t: string, sep: char)
    requires sep !in t
    ensures Split(s + [sep] + t, sep) == Split(s, sep) + [t]
  {
    if s == "" {
      assert (s + [sep] + t)[1..] == t;
      SplitPlain(t, sep);
    } else {
      var whole := s + [sep] + t;
      assert whole[1..] == s[1..] + [sep] + t && whole[0] == s[0];
      SplitJoin(s[1..], t, sep);
      var rest := Split(s[1..], sep);
      assert Split(whole[1..], sep) == rest + [t];
      assert (rest + [t])[1..] == rest[1..] + [t] && (rest + [t])[0] == rest[0];
    }
  }

  lemma {:induction false} SplitRender(parts: seq<string>)
    requires parts != []
    ensures Render(parts) != "" && Render(parts)[0] == '/'
    ensures Split(Render(parts)[1..], '/') == EscapeAll(parts)
  {
    var init, last := parts[..|parts| - 1], EscapePointer(parts[|parts| - 1]);
    EscapedHasNoSlash(parts[|parts| - 1]);
    assert Render(parts) == Render(init) + "/" + last;
    assert EscapeAll(parts) == EscapeAll(init) + [last];
    if init == [] {
      assert EscapeAll(init) == [];
      hide EscapePointer, Render, Split, EscapeAll;
      assert Render(parts)[1..] == last by {
        assert Render([]) == "";
      }
      SplitPlain(last, '/');
    } else {
      SplitRender(init);
      hide EscapePointer, Render, Split, EscapeAll;
      assert Render(parts)[1..] == Render(init)[1..] + ['/'] + last;
      SplitJoin(Render(init)[1..], last, '/');
    }
  }

  function EscapeAll(parts: seq<string>): (r: seq<string>)
    ensures |r| == |parts| && forall i :: 0 <= i < |r| ==> r[i] == EscapePointer(parts[i])
  {
    seq(|parts|, i requires 0 <= i < |parts| => EscapePointer(parts[i]))
  }

  /** The keys of a path; None when it does not start with a slash. */
  function PathParts(path: string): Option<seq<string>> {
    if path == "" then Some([])
    else if path == "/" then Some([""])
    else if path[0] != '/' then None
    else Some(UnescapeAll(Split(path[1..], '/')))
  }

  /** Section 3 of RFC 6901: the keys of a rendered path are the keys it was rendered from. */
  lemma {:induction false} PartsRender(parts: seq<string>)
    ensures PathParts(Render(parts)) == Some(parts)
  {
    if parts != [] {
      SplitRender(parts);
      var path := Render(parts);
      forall i | 0 <= i < |parts|
        ensures UnescapePointer(EscapePointer(parts[i])) == parts[i]
      {
        UnescapeEscape(parts[i]);
      }
      assert UnescapeAll(EscapeAll(parts)) == parts;
      if path == "/" {
        assert path[1..] == "" && Split("", '/') == [""];
        assert EscapeAll(parts)[0] == "" && parts[0] == UnescapePointer("") == "";
        assert parts == [""];
      }
    }
  }

  // ---------- array indices ----------

  const MAX_INT := 0x7fff_ffff_ffff_ffff

  predicate IsDigit(c: char) {
    '0' <= c <= '9'
  }

  function Decimal(n: nat): (s: string)
    ensures s != "" && forall i :: 0 <= i < |s| ==> IsDigit(s[i])
  {
    var digit := ('0' as int + n % 10) as char;
    if n < 10 then [digit] else Decimal(n / 10) + [digit]
  }

  function DigitsValue(s: string): (n: nat)
    requires forall i :: 0 <= i < |s| ==> IsDigit(s[i])
  {
    if s == "" then 0
    else
      assert IsDigit(s[|s| - 1]);
      DigitsValue(s[..|s| - 1]) * 10 + (s[|s| - 1] as int - '0' as int)
  }

  predicate AllDigits(s: string) {
    forall i :: 0 <= i < |s| ==> IsDigit(s[i])
  }

  /** A base-ten machine integer with an optional sign; None when malformed or out of range. */
  function Atoi(s: string): Option<int> {
    var digits := if s != "" && (s[0] == '-' || s[0] == '+') then s[1..] else s;
    if digits == "" || !AllDigits(digits) then None
    else
      var n := if s[0] == '-' then 0 - DigitsValue(digits) else DigitsValue(digits);
      if -MAX_INT - 1 <= n <= MAX_INT then Some(n) else None
  }

  lemma {:induction false} DecimalValue(n: nat)
    ensures DigitsValue(Decimal(n)) == n
  {
    if n >= 10 {
      DecimalValue(n / 10);
      var s := Decimal(n);
      assert s[..|s| - 1] == Decimal(n / 10);
    }
  }

  lemma {:induction false} AtoiDecimal(n: nat)
    requires n <= MAX_INT
    ensures Atoi(Decimal(n)) == Some(n)
  {
    DecimalValue(n);
    var s := Decimal(n);
    assert IsDigit(s[0]);
  }

  /** Numbers are read digit by digit, lowest last, behind an optional sign; anything else is no number. */
  lemma {:induction false} AtoiMeans(s: string, d: char)
    requires IsDigit(d) && forall i :: 0 <= i < |s| ==> IsDigit(s[i])
    ensures Atoi([d]) == Some(d as int - '0' as int)
    ensures Atoi("") == None && Atoi("-") == None && Atoi("+") == None
    ensures s != "" ==>
      var n: int := DigitsValue(s + [d]);
      && (Atoi(s).Some? ==> n == 10 * Atoi(s).value + (d as int - '0' as int))
      && Atoi(s + [d]) == Atoi("+" + (s + [d])) == (if n <= MAX_INT then Some(n) else None)
      && Atoi("-" + (s + [d])) == if n <= MAX_INT + 1 then Some(-n) else None
  {
    assert [d][..0] == "";
    var t := s + [d];
    assert t[..|t| - 1] == s && forall i :: 0 <= i < |t| ==> IsDigit(t[i]);
    assert ("-" + t)[1..] == t && ("+" + t)[1..] == t;
    assert DigitsValue("") == 0 && DigitsValue([d]) == d as int - '0' as int;
  }

  lemma {:induction false} AtoiRefuses(s: string, i: nat)
    requires i < |s| && !IsDigit(s[i]) && (i > 0 || (s[0] != '-' && s[0] != '+'))
    ensures Atoi(s) == None
  {
    var signed := s[0] == '-' || s[0] == '+';
    var digits := if signed then s[1..] else s;
    var j := if signed then i - 1 else i;
    assert 0 <= j < |digits| && digits[j] == s[i] && !IsDigit(digits[j]);
    assert !AllDigits(digits);
  }

  lemma {:induction false} DecimalIsPlain(n: nat)
    ensures EscapePointer(Decimal(n)) == Decimal(n) && Decimal(n) != "-"
  {
    EscapePlain(Decimal(n));
  }
}
