/** Schema version strings: reading, printing and comparing them. */
module SchemaVersions {
  import opened Common

  /** Components are Go ints on a 64-bit platform. */
  const MAX_INT := 0x7FFF_FFFF_FFFF_FFFF

  datatype SchemaVer = SchemaVer(major: int, minor: int, patch: int, raw: string)

  /** strings.Split(s, "-"). */
  function SplitDash(s: string): (parts: seq<string>)
    ensures |parts| >= 1
  {
    if s == "" then [""]
    else
      var rest := SplitDash(s[1..]);
      if s[0] == '-' then [""] + rest else [[s[0]] + rest[0]] + rest[1..]
  }

  /** The white space that fmt's scanner skips. */
  predicate IsSpace(c: char) {
    || '\t' <= c <= '\r' || c == ' ' || c == 0x85 as char || c == 0xA0 as char || c == 0x1680 as char
    || 0x2000 as char <= c <= 0x200A as char || c == 0x2028 as char || c == 0x2029 as char
    || c == 0x202F as char || c == 0x205F as char || c == 0x3000 as char
  }

  /** Leading white space is skipped, except that a newline is an error. */
  function SkipSpace(s: string): Option<string> {
    if s == "" then Some(s)
    else if s[0] == '\n' then None
    else if IsSpace(s[0]) then SkipSpace(s[1..])
    else Some(s)
  }

  predicate IsDigit(c: char) { '0' <= c <= '9' }

  function DigitPrefix(s: string): string {
    if s != "" && IsDigit(s[0]) then [s[0]] + DigitPrefix(s[1..]) else ""
  }

  function Value(digits: string): int {
    if digits == "" then 0
    else 10 * Value(digits[..|digits| - 1]) + (digits[|digits| - 1] as int - '0' as int)
  }

  /** fmt.Sscanf(s, "%d", &n): white space, an optional sign, the longest run of
      digits; what follows is ignored. None when there is no digit or the number
      does not fit. */
  function ScanInt(s: string): Option<int> {
    match SkipSpace(s)
    case None => None
    case Some(t) =>
      var signed := t != "" && (t[0] == '+' || t[0] == '-');
      var digits := DigitPrefix(if signed then t[1..] else t);
      var n := if signed && t[0] == '-' then -Value(digits) else Value(digits);
      if digits == "" || n > MAX_INT || n < -MAX_INT - 1 then None else Some(n)
  }

  function Parse(v: string): Option<SchemaVer> {
    var parts := SplitDash(v);
    if |parts| != 3 then None
    else
      match (ScanInt(parts[0]), ScanInt(parts[1]), ScanInt(parts[2]))
      case (Some(major), Some(minor), Some(patch)) => Some(SchemaVer(major, minor, patch, v))
      case _ => None
  }

  function Signum(n: int): int {
    if n < 0 then -1 else if n > 0 then 1 else 0
  }

  /** What a Go int holds after one addition or subtraction whose exact result is n. */
  function Wrap(n: int): int {
    if n > MAX_INT then n - 2 * (MAX_INT + 1)
    else if n < -MAX_INT - 1 then n + 2 * (MAX_INT + 1)
    else n
  }

  function Compare(a: SchemaVer, b: SchemaVer): int {
    if a.major != b.major then Signum(Wrap(a.major - b.major))
    else if a.minor != b.minor then Signum(Wrap(a.minor - b.minor))
    else Signum(Wrap(a.patch - b.patch))
  }

  /** fmt's %d. */
  function PrintNat(n: nat): string {
    if n < 10 then [('0' as int + n) as char] else PrintNat(n / 10) + [('0' as int + n % 10) as char]
  }

  function PrintInt(n: int): string {
    if n < 0 then "-" + PrintNat(-n) else PrintNat(n)
  }

  function PrintTriple(major: int, minor: int, patch: int): string {
    PrintInt(major) + "-" + PrintInt(minor) + "-" + PrintInt(patch)
  }

  // ------------------------------------------------------------------ theorems

  ghost predicate InRange(v: SchemaVer) {
    0 <= v.major <= MAX_INT && 0 <= v.minor <= MAX_INT && 0 <= v.patch <= MAX_INT
  }

  /** The lexicographic order Compare is meant to be. */
  ghost predicate Below(a: SchemaVer, b: SchemaVer) {
    || a.major < b.major
    || (a.major == b.major && a.minor < b.minor)
    || (a.major == b.major && a.minor == b.minor && a.patch < b.patch)
  }

  ghost predicate SameTriple(a: SchemaVer, b: SchemaVer) {
    a.major == b.major && a.minor == b.minor && a.patch == b.patch
  }

  /** On non-negative versions no difference overflows, so Compare is the
      lexicographic order of the triples. */
  lemma CompareIsLexicographic(a: SchemaVer, b: SchemaVer)
    requires InRange(a) && InRange(b)
    ensures Compare(a, b) < 0 <==> Below(a, b)
    ensures Compare(a, b) == 0 <==> SameTriple(a, b)
    ensures Compare(a, b) > 0 <==> Below(b, a)
  {
  }

  lemma {:induction false} PrintedDigits(n: nat)
    ensures PrintNat(n) != "" && forall c :: c in PrintNat(n) ==> IsDigit(c)
    ensures Value(PrintNat(n)) == n
  {
    if n >= 10 {
      PrintedDigits(n / 10);
      var front := PrintNat(n / 10);
      var last := ('0' as int + n % 10) as char;
      assert PrintNat(n) == front + [last];
      assert PrintNat(n)[..|PrintNat(n)| - 1] == front;
    }
  }

  lemma {:induction false} SplitPlain(s: string)
    requires '-' !in s
    ensures SplitDash(s) == [s]
  {
    if s != "" {
      assert s == [s[0]] + s[1..];
      SplitPlain(s[1..]);
    }
  }

  lemma {:induction false} SplitFirst(s: string, rest: string)
    requires '-' !in s
    ensures SplitDash(s + "-" + rest) == [s] + SplitDash(rest)
  {
    var whole := s + "-" + rest;
    if s == "" {
      assert whole == "-" + rest;
      assert whole[1..] == rest;
    } else {
      assert whole[1..] == s[1..] + "-" + rest;
      SplitFirst(s[1..], rest);
      assert s == [s[0]] + s[1..];
    }
  }

  lemma SplitThree(a: string, b: string, c: string)
    requires '-' !in a && '-' !in b && '-' !in c
    ensures SplitDash(a + "-" + (b + "-" + c)) == [a, b, c]
  {
    SplitFirst(a, b + "-" + c);
    SplitFirst(b, c);
    SplitPlain(c);
  }

  lemma {:induction false} PrefixStops(digits: string, junk: string)
    requires forall c :: c in digits ==> IsDigit(c)
    requires junk != "" ==> !IsDigit(junk[0])
    ensures DigitPrefix(digits + junk) == digits
  {
    if digits == "" {
      assert digits + junk == junk;
    } else {
      assert (digits + junk)[1..] == digits[1..] + junk;
      PrefixStops(digits[1..], junk);
    }
  }

  /** Scanning reads back what was printed, whatever non-digit follows it. */
  lemma ScanPrinted(n: nat, junk: string)
    requires n <= MAX_INT && (junk != "" ==> !IsDigit(junk[0]))
    ensures ScanInt(PrintNat(n) + junk) == Some(n)
  {
    var digits := PrintNat(n);
    PrintedDigits(n);
    PrefixStops(digits, junk);
    var t := digits + junk;
    assert t[0] == digits[0] && digits[0] in digits;
    assert SkipSpace(t) == Some(t);
  }

  lemma PrintedNoDash(n: nat)
    ensures '-' !in PrintNat(n)
  {
    PrintedDigits(n);
  }

  lemma Regroup(a: string, b: string, c: string, junk: string)
    ensures a + "-" + b + "-" + c + junk == a + "-" + (b + "-" + (c + junk))
  {
  }

  /** A printed version parses back to the same three numbers. Text after the last
      number is ignored, so a version's triple does not determine its spelling. */
  lemma ParsePrinted(major: nat, minor: nat, patch: nat, junk: string)
    requires major <= MAX_INT && minor <= MAX_INT && patch <= MAX_INT
    requires '-' !in junk && (junk != "" ==> !IsDigit(junk[0]))
    ensures var raw := PrintTriple(major, minor, patch) + junk; Parse(raw) == Some(SchemaVer(major, minor, patch, raw))
  {
    var a, b, c := PrintNat(major), PrintNat(minor), PrintNat(patch);
    PrintedNoDash(major);
    PrintedNoDash(minor);
    PrintedNoDash(patch);
    Regroup(a, b, c, junk);
    SplitThree(a, b, c + junk);
    assert ScanInt(a) == Some(major) by { ScanPrinted(major, ""); assert a + "" == a; }
    assert ScanInt(b) == Some(minor) by { ScanPrinted(minor, ""); assert b + "" == b; }
    ScanPrinted(patch, junk);
  }

  lemma {:induction false} PartsHaveNoDash(s: string)
    ensures forall i :: 0 <= i < |SplitDash(s)| ==> '-' !in SplitDash(s)[i]
  {
    if s != "" {
      PartsHaveNoDash(s[1..]);
    }
  }

  lemma {:induction false} SkipKeepsNoDash(s: string)
    requires '-' !in s
    ensures SkipSpace(s).Some? ==> '-' !in SkipSpace(s).value
  {
    if s != "" && s[0] != '\n' && IsSpace(s[0]) {
      SkipKeepsNoDash(s[1..]);
    }
  }

  lemma {:induction false} ValueNonNegative(s: string)
    requires forall c :: c in s ==> IsDigit(c)
    ensures Value(s) >= 0
  {
    if s != "" {
      assert s[|s| - 1] in s;
      ValueNonNegative(s[..|s| - 1]);
    }
  }

  lemma {:induction false} PrefixIsDigits(s: string)
    ensures forall c :: c in DigitPrefix(s) ==> IsDigit(c)
  {
    if s != "" && IsDigit(s[0]) {
      PrefixIsDigits(s[1..]);
    }
  }

  lemma ScanNonNegative(s: string)
    requires '-' !in s && ScanInt(s).Some?
    ensures 0 <= ScanInt(s).value <= MAX_INT
  {
    SkipKeepsNoDash(s);
    var t := SkipSpace(s).value;
    var u := if t != "" && (t[0] == '+' || t[0] == '-') then t[1..] else t;
    PrefixIsDigits(u);
    ValueNonNegative(DigitPrefix(u));
  }

  /** Every parsed version is non-negative and in range: a minus sign is a separator. */
  lemma ParsedInRange(v: string)
    requires Parse(v).Some?
    ensures InRange(Parse(v).value) && Parse(v).value.raw == v
  {
    PartsHaveNoDash(v);
    var parts := SplitDash(v);
    ScanNonNegative(parts[0]);
    ScanNonNegative(parts[1]);
    ScanNonNegative(parts[2]);
  }

  // ------------------------------------------------------- exactly what parses

  /** A number as the scanner takes it: white space but no newline, perhaps a plus sign,
      digits, and then anything that does not begin with a digit. */
  ghost predicate Scanned(s: string, spaces: string, plus: string, digits: string, rest: string) {
    && s == spaces + plus + digits + rest
    && (forall c :: c in spaces ==> IsSpace(c) && c != '\n')
    && (plus == "" || plus == "+")
    && digits != "" && (forall c :: c in digits ==> IsDigit(c))
    && (rest != "" ==> !IsDigit(rest[0]))
  }

  lemma {:induction false} SkipsSpaces(spaces: string, t: string)
    requires forall c :: c in spaces ==> IsSpace(c) && c != '\n'
    requires t != "" && !IsSpace(t[0])
    ensures SkipSpace(spaces + t) == Some(t)
  {
    if spaces == "" {
      assert spaces + t == t;
    } else {
      assert spaces[0] in spaces;
      assert (spaces + t)[1..] == spaces[1..] + t;
      SkipsSpaces(spaces[1..], t);
    }
  }

  /** Such a text scans to the value of its digits, if that fits. */
  lemma ScansTo(s: string, spaces: string, plus: string, digits: string, rest: string)
    requires Scanned(s, spaces, plus, digits, rest)
    ensures ScanInt(s) == if 0 <= Value(digits) <= MAX_INT then Some(Value(digits)) else None
  {
    var t := plus + (digits + rest);
    assert s == spaces + t;
    assert digits[0] in digits;
    SkipsSpaces(spaces, t);
    PrefixStops(digits, rest);
    ValueNonNegative(digits);
    if plus == "+" {
      assert t[1..] == digits + rest;
    } else {
      assert t == digits + rest;
    }
  }

  lemma {:induction false} SpacesSkipped(s: string) returns (spaces: string, t: string)
    requires SkipSpace(s).Some?
    ensures s == spaces + t && SkipSpace(s) == Some(t)
    ensures forall c :: c in spaces ==> IsSpace(c) && c != '\n'
  {
    if s != "" && IsSpace(s[0]) {
      var more, u := SpacesSkipped(s[1..]);
      spaces, t := [s[0]] + more, u;
    } else {
      spaces, t := "", s;
    }
  }

  lemma {:induction false} PrefixAndRest(s: string)
    ensures DigitPrefix(s) <= s
    ensures var rest := s[|DigitPrefix(s)|..]; rest != "" ==> !IsDigit(rest[0])
  {
    if s != "" && IsDigit(s[0]) {
      PrefixAndRest(s[1..]);
      assert s[|DigitPrefix(s)|..] == s[1..][|DigitPrefix(s[1..])|..];
    }
  }

  /** And every dash-free text that scans has that shape. */
  lemma ScannedShape(s: string) returns (spaces: string, plus: string, digits: string, rest: string)
    requires '-' !in s && ScanInt(s).Some?
    ensures Scanned(s, spaces, plus, digits, rest) && ScanInt(s) == Some(Value(digits))
  {
    var t;
    spaces, t := SpacesSkipped(s);
    SkipKeepsNoDash(s);
    plus, digits, rest := SignAndDigits(t);
    assert s == spaces + plus + digits + rest;
    ScansTo(s, spaces, plus, digits, rest);
  }

  /** After the white space: what the scanner makes of it, when it finds digits. */
  function Unsigned(t: string): string {
    if t != "" && (t[0] == '+' || t[0] == '-') then t[1..] else t
  }

  lemma SignAndDigits(t: string) returns (plus: string, digits: string, rest: string)
    requires '-' !in t && DigitPrefix(Unsigned(t)) != ""
    ensures t == plus + digits + rest && (plus == "" || plus == "+")
    ensures digits != "" && (forall c :: c in digits ==> IsDigit(c)) && (rest != "" ==> !IsDigit(rest[0]))
  {
    plus := if t != "" && t[0] == '+' then "+" else "";
    assert t != "" ==> t[0] in t;
    var u := Unsigned(t);
    assert t == plus + u;
    digits := DigitPrefix(u);
    PrefixAndRest(u);
    PrefixIsDigits(u);
    rest := u[|digits|..];
  }

  /** A string is a version exactly when it is three dash-free texts that scan, joined by
      dashes. */
  lemma ParsesExactlyWhen(v: string)
    ensures Parse(v).Some? <==>
      exists a, b, c :: v == a + "-" + (b + "-" + c) && '-' !in a && '-' !in b && '-' !in c
        && ScanInt(a).Some? && ScanInt(b).Some? && ScanInt(c).Some?
  {
    if Parse(v).Some? {
      var parts := SplitDash(v);
      PartsHaveNoDash(v);
      Unsplit(v);
      assert v == parts[0] + "-" + (parts[1] + "-" + parts[2]);
    }
    if a, b, c :| v == a + "-" + (b + "-" + c) && '-' !in a && '-' !in b && '-' !in c
                  && ScanInt(a).Some? && ScanInt(b).Some? && ScanInt(c).Some? {
      SplitThree(a, b, c);
    }
  }

  function JoinDash(parts: seq<string>): string
    requires |parts| >= 1
  {
    if |parts| == 1 then parts[0] else parts[0] + "-" + JoinDash(parts[1..])
  }

  lemma {:induction false} Unsplit(s: string)
    ensures JoinDash(SplitDash(s)) == s
    ensures |SplitDash(s)| == 3 ==> s == SplitDash(s)[0] + "-" + (SplitDash(s)[1] + "-" + SplitDash(s)[2])
  {
    if s != "" {
      var rest := SplitDash(s[1..]);
      Unsplit(s[1..]);
      if s[0] == '-' {
        assert SplitDash(s)[1..] == rest;
      } else {
        assert SplitDash(s)[1..] == rest[1..];
      }
      assert s == [s[0]] + s[1..];
    }
    var parts := SplitDash(s);
    if |parts| == 3 {
      assert JoinDash(parts[1..][1..]) == parts[2];
      assert JoinDash(parts[1..]) == parts[1] + "-" + parts[2];
    }
  }
}
