/**
 * The JavaScript string operations the dashboard relies on, over Dafny
 * strings (`seq<char>`): `trim`, `split(',')`, `join(',')`, `includes`,
 * `toUpperCase` / `toLowerCase`, `String(n)` of an integer, the digit
 * extraction `replace(/\D/g, "")` followed by `parseInt`, `padStart`, and
 * Node's `path.basename`.
 */
module Text {

  // ---------------------------------------------------------------------
  // Whitespace and trim
  // ---------------------------------------------------------------------

  /** The characters `String.prototype.trim` removes (white space and line terminators). */
  predicate IsWhite(c: char)
  {
    c == ' ' || c == '\t' || c == '\n' || c == '\r' || c == '\U{000B}' || c == '\U{000C}'
    || c == '\U{00A0}' || c == '\U{1680}' || ('\U{2000}' <= c <= '\U{200A}')
    || c == '\U{2028}' || c == '\U{2029}' || c == '\U{202F}' || c == '\U{205F}'
    || c == '\U{3000}' || c == '\U{FEFF}'
  }

  /** A string with no white space at either end: what `trim` returns. */
  predicate Trimmed(t: string)
  {
    |t| == 0 || (!IsWhite(t[0]) && !IsWhite(t[|t| - 1]))
  }

  function TrimStart(s: string): (r: string)
    ensures |r| == 0 || !IsWhite(r[0])
    ensures forall c :: c in r ==> c in s
    ensures Trimmed(s) ==> r == s
    decreases |s|
  {
    if |s| > 0 && IsWhite(s[0]) then TrimStart(s[1..]) else s
  }

  function TrimEnd(s: string): (r: string)
    ensures |r| == 0 || !IsWhite(r[|r| - 1])
    ensures forall c :: c in r ==> c in s
    ensures |s| > 0 && !IsWhite(s[0]) ==> |r| > 0 && r[0] == s[0]
    ensures Trimmed(s) ==> r == s
    decreases |s|
  {
    if |s| > 0 && IsWhite(s[|s| - 1]) then TrimEnd(s[..|s| - 1]) else s
  }

  /** `s.trim()`: no white space left at either end, no new characters, and a trimmed string is kept. */
  function Trim(s: string): (r: string)
    ensures Trimmed(r)
    ensures forall c :: c in r ==> c in s
    ensures Trimmed(s) ==> r == s
  {
    TrimEnd(TrimStart(s))
  }

  lemma TrimIdempotent(s: string)
    ensures Trim(Trim(s)) == Trim(s)
  {
  }

  // ---------------------------------------------------------------------
  // split / join
  // ---------------------------------------------------------------------

  /** `s.split(sep)` for a one-character separator: never empty; "" splits to [""]. */
  function Split(s: string, sep: char): (r: seq<string>)
    ensures |r| >= 1
    decreases |s|
  {
    if |s| == 0 then [""]
    else
      var rest := Split(s[1..], sep);
      if s[0] == sep then [""] + rest
      else [[s[0]] + rest[0]] + rest[1..]
  }

  /** `parts.join(sep)`: [] joins to "". */
  function Join(parts: seq<string>, sep: char): string
  {
    if |parts| == 0 then ""
    else if |parts| == 1 then parts[0]
    else parts[0] + [sep] + Join(parts[1..], sep)
  }

  /** No piece of a split contains the separator. */
  lemma {:induction false} SplitPiecesFree(s: string, sep: char)
    ensures forall i :: 0 <= i < |Split(s, sep)| ==> sep !in Split(s, sep)[i]
    decreases |s|
  {
    if |s| > 0 {
      SplitPiecesFree(s[1..], sep);
    }
  }

  lemma JoinCons(a: string, p: seq<string>, sep: char)
    requires |p| >= 1
    ensures Join([a] + p, sep) == a + [sep] + Join(p, sep)
  {
    assert ([a] + p)[1..] == p;
  }

  /** Joining the pieces of a split gives back the original string. */
  lemma {:induction false} JoinOfSplit(s: string, sep: char)
    ensures Join(Split(s, sep), sep) == s
    decreases |s|
  {
    if |s| > 0 {
      var rest := Split(s[1..], sep);
      JoinOfSplit(s[1..], sep);
      if s[0] == sep {
        JoinCons("", rest, sep);
        assert s == [sep] + s[1..];
      } else if |rest| == 1 {
        assert s == [s[0]] + s[1..];
      } else {
        assert rest == [rest[0]] + rest[1..];
        JoinCons(rest[0], rest[1..], sep);
        JoinCons([s[0]] + rest[0], rest[1..], sep);
        assert s == [s[0]] + s[1..];
      }
    }
  }

  lemma {:induction false} SplitFree(a: string, sep: char)
    requires sep !in a
    ensures Split(a, sep) == [a]
    decreases |a|
  {
    if |a| > 0 {
      SplitFree(a[1..], sep);
      assert a == [a[0]] + a[1..];
    }
  }

  lemma {:induction false} SplitAfterSeparator(a: string, t: string, sep: char)
    requires sep !in a
    ensures Split(a + [sep] + t, sep) == [a] + Split(t, sep)
    decreases |a|
  {
    var w := a + [sep] + t;
    if |a| == 0 {
      assert w[1..] == t;
    } else {
      assert w[1..] == a[1..] + [sep] + t;
      SplitAfterSeparator(a[1..], t, sep);
      assert a == [a[0]] + a[1..];
    }
  }

  /** Splitting a join of separator-free pieces gives back the pieces. */
  lemma {:induction false} SplitOfJoin(parts: seq<string>, sep: char)
    requires |parts| >= 1
    requires forall i :: 0 <= i < |parts| ==> sep !in parts[i]
    ensures Split(Join(parts, sep), sep) == parts
    decreases |parts|
  {
    if |parts| == 1 {
      SplitFree(parts[0], sep);
    } else {
      SplitOfJoin(parts[1..], sep);
      SplitAfterSeparator(parts[0], Join(parts[1..], sep), sep);
      assert parts == [parts[0]] + parts[1..];
    }
  }

  lemma {:induction false} JoinEmpty(parts: seq<string>, sep: char)
    ensures Join(parts, sep) == "" <==> parts == [] || parts == [""]
    decreases |parts|
  {
    if |parts| >= 2 {
      assert |Join(parts, sep)| >= 1;
    }
  }

  // ---------------------------------------------------------------------
  // Comma-separated identifier lists
  // ---------------------------------------------------------------------

  /** One entry of a stored identifier list: no comma, no surrounding white space. */
  predicate IsToken(t: string)
  {
    ',' !in t && Trimmed(t)
  }

  function MapTrim(xs: seq<string>): (r: seq<string>)
    ensures |r| == |xs|
  {
    seq(|xs|, i requires 0 <= i < |xs| => Trim(xs[i]))
  }

  /** `s.split(',').map(x => x.trim())`. */
  function Tokens(s: string): seq<string>
  {
    MapTrim(Split(s, ','))
  }

  /** Every entry of a parsed list is a token. */
  lemma TokensAreTokens(s: string)
    ensures |Tokens(s)| >= 1
    ensures forall i :: 0 <= i < |Tokens(s)| ==> IsToken(Tokens(s)[i])
  {
    SplitPiecesFree(s, ',');
  }

  /** A list of tokens written with `join(',')` parses back to itself. */
  lemma TokensOfJoin(xs: seq<string>)
    requires |xs| >= 1
    requires forall i :: 0 <= i < |xs| ==> IsToken(xs[i])
    ensures Tokens(Join(xs, ',')) == xs
  {
    SplitOfJoin(xs, ',');
  }

  /** `xs.filter(x => x !== v)`: every other entry stays, in order, and `v` is gone. */
  function Without(xs: seq<string>, v: string): (r: seq<string>)
    ensures v !in r
    ensures forall y :: y in r <==> y in xs && y != v
    ensures |r| <= |xs|
    ensures v !in xs ==> r == xs
  {
    if |xs| == 0 then []
    else if xs[0] == v then Without(xs[1..], v)
    else [xs[0]] + Without(xs[1..], v)
  }

  // ---------------------------------------------------------------------
  // Case mapping and substring search
  // ---------------------------------------------------------------------

  /** `toUpperCase` on one character, for ASCII and the Latin-1 letters (à-þ but ÷). */
  function UpperChar(c: char): char
  {
    if 'a' <= c <= 'z' || ('à' <= c <= 'þ' && c != '÷') then (c as int - 32) as char
    else c
  }

  /** `toLowerCase` on one character, for ASCII and the Latin-1 letters (À-Þ but ×). */
  function LowerChar(c: char): char
  {
    if 'A' <= c <= 'Z' || ('À' <= c <= 'Þ' && c != '×') then (c as int + 32) as char
    else c
  }

  function Upper(s: string): (r: string)
    ensures |r| == |s|
  {
    seq(|s|, i requires 0 <= i < |s| => UpperChar(s[i]))
  }

  function Lower(s: string): (r: string)
    ensures |r| == |s|
  {
    seq(|s|, i requires 0 <= i < |s| => LowerChar(s[i]))
  }

  /** Upper-casing twice is upper-casing once, and it forgets the original case. */
  lemma UpperIdempotent(s: string)
    ensures Upper(Upper(s)) == Upper(s)
    ensures Upper(Lower(s)) == Upper(s)
  {
  }

  lemma LowerIdempotent(s: string)
    ensures Lower(Lower(s)) == Lower(s)
    ensures Lower(Upper(s)) == Lower(s)
  {
  }

  /** `s.includes(t)`. */
  predicate Contains(s: string, t: string)
  {
    exists i :: 0 <= i <= |s| - |t| && t <= s[i..]
  }

  lemma ContainsItself(s: string)
    ensures Contains(s, s)
  {
    assert s <= s[0..];
  }

  // ---------------------------------------------------------------------
  // Numbers written as text
  // ---------------------------------------------------------------------

  predicate IsDigit(c: char)
  {
    '0' <= c <= '9'
  }

  predicate AllDigits(s: string)
  {
    forall i :: 0 <= i < |s| ==> IsDigit(s[i])
  }

  function DigitChar(d: nat): char
    requires d < 10
  {
    ('0' as int + d) as char
  }

  /** `String(n)` of a non-negative integer: decimal digits, no leading zero. */
  function NatToString(n: nat): (r: string)
    ensures |r| >= 1 && AllDigits(r)
    ensures n >= 10 ==> r[0] != '0'
  {
    if n < 10 then [DigitChar(n)] else NatToString(n / 10) + [DigitChar(n % 10)]
  }

  /** `String(i)` of an integer. */
  function IntToString(i: int): string
  {
    if i < 0 then "-" + NatToString(-i) else NatToString(i)
  }

  /** The decimal value of a string of digits (what `parseInt(s, 10)` reads). */
  function DigitValue(s: string): nat
    requires AllDigits(s)
  {
    if |s| == 0 then 0 else DigitValue(s[..|s| - 1]) * 10 + (s[|s| - 1] as int - '0' as int)
  }

  /** Reading back a written number gives the number. */
  lemma {:induction false} DigitValueOfNatToString(n: nat)
    ensures DigitValue(NatToString(n)) == n
  {
    if n >= 10 {
      DigitValueOfNatToString(n / 10);
      var s := NatToString(n);
      assert s[..|s| - 1] == NatToString(n / 10);
    }
  }

  /** Different numbers are written differently. */
  lemma NatToStringInjective(m: nat, n: nat)
    requires NatToString(m) == NatToString(n)
    ensures m == n
  {
    DigitValueOfNatToString(m);
    DigitValueOfNatToString(n);
  }

  /** A written non-negative integer is a valid list token. */
  lemma NatToStringIsToken(n: nat)
    ensures IsToken(NatToString(n)) && NatToString(n) != ""
  {
    var s := NatToString(n);
    assert forall c :: c in s ==> IsDigit(c);
  }

  /** `s.replace(/\D/g, "")`: the digits of `s`, in order. */
  function DigitsOnly(s: string): (r: string)
    ensures AllDigits(r)
    ensures |r| <= |s|
    ensures AllDigits(s) ==> r == s
  {
    if |s| == 0 then ""
    else if IsDigit(s[0]) then [s[0]] + DigitsOnly(s[1..])
    else DigitsOnly(s[1..])
  }

  /** `parseInt(s.replace(/\D/g, ""), 10) || 0`: the number the digits of `s` spell, 0 when it has none. */
  function NumberInText(s: string): nat
  {
    DigitValue(DigitsOnly(s))
  }

  /** A text that is already a plain number reads as that number. */
  lemma NumberInTextOfNumber(n: nat)
    ensures NumberInText(NatToString(n)) == n
  {
    DigitValueOfNatToString(n);
  }

  /** A text with no digits reads as 0. */
  lemma NumberInTextWithoutDigits(s: string)
    requires forall i :: 0 <= i < |s| ==> !IsDigit(s[i])
    ensures NumberInText(s) == 0
  {
    assert DigitsOnly(s) == "" by { NoDigits(s); }
  }

  lemma {:induction false} NoDigits(s: string)
    requires forall i :: 0 <= i < |s| ==> !IsDigit(s[i])
    ensures DigitsOnly(s) == ""
  {
    if |s| > 0 {
      NoDigits(s[1..]);
    }
  }

  /** `s.padStart(width, c)`: pads on the left up to `width`, never truncates. */
  function PadStart(s: string, width: nat, c: char): (r: string)
    ensures |r| == if |s| >= width then |s| else width
    ensures r[|r| - |s|..] == s
    ensures forall i :: 0 <= i < |r| - |s| ==> r[i] == c
  {
    if |s| >= width then s else seq(width - |s|, _ => c) + s
  }

  // ---------------------------------------------------------------------
  // Paths
  // ---------------------------------------------------------------------

  function DropTrailingSlashes(p: string): string
  {
    if |p| > 0 && p[|p| - 1] == '/' then DropTrailingSlashes(p[..|p| - 1]) else p
  }

  /** The part of `p` after its last '/'. */
  function LastSegment(p: string): (r: string)
    ensures '/' !in r
  {
    if |p| == 0 || p[|p| - 1] == '/' then "" else LastSegment(p[..|p| - 1]) + [p[|p| - 1]]
  }

  /** Node's POSIX `path.basename`: trailing slashes dropped, then the last segment. */
  function Basename(p: string): string
  {
    LastSegment(DropTrailingSlashes(p))
  }

  /** The base name of `dir + "/" + name` is `name` when `name` is a plain file name. */
  lemma {:induction false} BasenameOfJoin(dir: string, name: string)
    requires name != "" && '/' !in name
    ensures Basename(dir + "/" + name) == name
  {
    var p := dir + "/" + name;
    assert p[|p| - 1] == name[|name| - 1] && name[|name| - 1] in name;
    assert DropTrailingSlashes(p) == p;
    LastSegmentOfSuffix(dir + "/", name);
  }

  lemma {:induction false} LastSegmentOfSuffix(d: string, name: string)
    requires |d| > 0 && d[|d| - 1] == '/' && '/' !in name
    ensures LastSegment(d + name) == name
    decreases |name|
  {
    if |name| == 0 {
      assert d + name == d;
    } else {
      var p := d + name;
      assert p[..|p| - 1] == d + name[..|name| - 1];
      assert name[|name| - 1] in name;
      LastSegmentOfSuffix(d, name[..|name| - 1]);
      assert name == name[..|name| - 1] + [name[|name| - 1]];
    }
  }
}
