/** The few Go standard-library string operations the core relies on:
    `strings.Split` with a one-character separator, `strings.TrimSpace`,
    `strings.HasPrefix`, `strconv.ParseUint(s, 10, 32)` and
    `filepath.Base` (Unix separators). Strings are sequences of Unicode
    characters, i.e. Go strings that are valid UTF-8. */
module GoStrings {
  import opened Basics

  // ---------------------------------------------------------------------
  // strings.Split(s, sep) for a one-character separator

  /** Number of occurrences of `c` in `s`. */
  function Count(s: string, c: char): nat
  {
    if s == [] then 0 else (if s[0] == c then 1 else 0) + Count(s[1..], c)
  }

  /** `strings.Join(fields, string(sep))`. */
  function Join(fields: seq<string>, sep: char): string
    requires |fields| >= 1
  {
    if |fields| == 1 then fields[0] else fields[0] + [sep] + Join(fields[1..], sep)
  }

  /** `strings.Split(s, string(sep))`: the maximal separator-free pieces of
      `s`, in order; the empty string splits into one empty field. */
  function Split(s: string, sep: char): (fields: seq<string>)
    ensures |fields| == Count(s, sep) + 1
    ensures forall i :: 0 <= i < |fields| ==> sep !in fields[i]
    ensures Join(fields, sep) == s
    ensures fields[0] <= s
    ensures |fields[0]| < |s| ==> s[|fields[0]|] == sep
  {
    if s == [] then [[]]
    else
      var rest := Split(s[1..], sep);
      if s[0] == sep then [[]] + rest
      else
        var fields := [[s[0]] + rest[0]] + rest[1..];
        assert fields[1..] == rest[1..];
        assert |rest| > 1 ==> rest == [rest[0]] + rest[1..];
        fields
  }

  /** Splitting a join of separator-free fields gives the fields back. */
  lemma {:induction false} SplitJoin(fields: seq<string>, sep: char)
    requires |fields| >= 1
    requires forall i :: 0 <= i < |fields| ==> sep !in fields[i]
    ensures Split(Join(fields, sep), sep) == fields
  {
    if |fields| == 1 {
      SplitNoSeparator(fields[0], sep);
    } else {
      SplitJoin(fields[1..], sep);
      SplitAfterField(fields[0], Join(fields[1..], sep), sep);
    }
  }

  lemma {:induction false} SplitNoSeparator(s: string, sep: char)
    requires sep !in s
    ensures Split(s, sep) == [s]
  {
    if s != [] {
      SplitNoSeparator(s[1..], sep);
    }
  }

  lemma {:induction false} SplitAfterField(a: string, rest: string, sep: char)
    requires sep !in a
    ensures Split(a + [sep] + rest, sep) == [a] + Split(rest, sep)
  {
    if a == [] {
      assert a + [sep] + rest == [sep] + rest;
      assert ([sep] + rest)[1..] == rest;
    } else {
      assert (a + [sep] + rest)[1..] == a[1..] + [sep] + rest;
      SplitAfterField(a[1..], rest, sep);
      assert [a[0]] + a[1..] == a;
    }
  }

  // ---------------------------------------------------------------------
  // strings.TrimSpace

  /** Go's `unicode.IsSpace`: the Latin-1 spaces and the other characters
      with the Unicode White_Space property. */
  predicate IsSpace(c: char)
  {
    var n := c as int;
    n == 0x09 || n == 0x0A || n == 0x0B || n == 0x0C || n == 0x0D || n == 0x20
    || n == 0x85 || n == 0xA0 || n == 0x1680 || (0x2000 <= n <= 0x200A)
    || n == 0x2028 || n == 0x2029 || n == 0x202F || n == 0x205F || n == 0x3000
  }

  /** `s` without its leading white space. */
  function TrimLeft(s: string): string
  {
    if s != [] && IsSpace(s[0]) then TrimLeft(s[1..]) else s
  }

  /** `s` without its trailing white space. */
  function TrimRight(s: string): string
  {
    if s != [] && IsSpace(s[|s| - 1]) then TrimRight(s[..|s| - 1]) else s
  }

  /** `TrimLeft` drops a run of white space from the front and stops at the
      first other character. */
  lemma {:induction false} TrimLeftMeaning(s: string)
    ensures |TrimLeft(s)| <= |s| && TrimLeft(s) == s[|s| - |TrimLeft(s)|..]
    ensures forall k :: 0 <= k < |s| - |TrimLeft(s)| ==> IsSpace(s[k])
    ensures TrimLeft(s) != [] ==> !IsSpace(TrimLeft(s)[0])
  {
    if s != [] && IsSpace(s[0]) {
      TrimLeftMeaning(s[1..]);
    }
  }

  /** `TrimRight` drops a run of white space from the back and stops at the
      last other character. */
  lemma {:induction false} TrimRightMeaning(s: string)
    ensures |TrimRight(s)| <= |s| && TrimRight(s) == s[..|TrimRight(s)|]
    ensures forall k :: |TrimRight(s)| <= k < |s| ==> IsSpace(s[k])
    ensures TrimRight(s) != [] ==> !IsSpace(TrimRight(s)[|TrimRight(s)| - 1])
  {
    if s != [] && IsSpace(s[|s| - 1]) {
      TrimRightMeaning(s[..|s| - 1]);
    }
  }

  /** `strings.TrimSpace`: `s` without its leading and trailing white space. */
  function TrimSpace(s: string): string
  {
    TrimRight(TrimLeft(s))
  }

  /** `TrimSpace(s)` is the slice of `s` between its leading and trailing
      white space, and begins and ends with a character that is not. */
  lemma TrimSpaceMeaning(s: string)
    ensures exists lo, hi ::
      && 0 <= lo <= hi <= |s| && TrimSpace(s) == s[lo..hi]
      && (forall k :: 0 <= k < lo ==> IsSpace(s[k]))
      && (forall k :: hi <= k < |s| ==> IsSpace(s[k]))
    ensures TrimSpace(s) != [] ==> !IsSpace(TrimSpace(s)[0]) && !IsSpace(TrimSpace(s)[|TrimSpace(s)| - 1])
  {
    var l := TrimLeft(s);
    TrimLeftMeaning(s);
    TrimRightMeaning(l);
    var lo := |s| - |l|;
    var hi := lo + |TrimRight(l)|;
    assert TrimSpace(s) == s[lo..hi];
    forall k | hi <= k < |s|
      ensures IsSpace(s[k])
    {
      assert s[k] == l[k - lo];
    }
    if TrimSpace(s) != [] {
      assert TrimSpace(s)[0] == l[0];
    }
  }

  /** A string with no white space at either end is its own trim. */
  lemma TrimSpaceUnchanged(s: string)
    requires s != [] ==> !IsSpace(s[0]) && !IsSpace(s[|s| - 1])
    ensures TrimSpace(s) == s
  {
  }

  // ---------------------------------------------------------------------
  // strings.HasPrefix

  predicate HasPrefix(s: string, prefix: string)
  {
    prefix <= s
  }

  // ---------------------------------------------------------------------
  // strconv.ParseUint(s, 10, 32)

  /** The largest `uint32`. */
  const MaxUint32: int := 0xFFFF_FFFF

  predicate IsDigit(c: char)
  {
    '0' <= c <= '9'
  }

  predicate AllDigits(s: string)
  {
    forall i :: 0 <= i < |s| ==> IsDigit(s[i])
  }

  function DigitValue(c: char): nat
    requires IsDigit(c)
  {
    (c as int) - ('0' as int)
  }

  /** The value of the digits `s` read after the already-read value `acc`. */
  function DecimalFrom(acc: nat, s: string): nat
    requires AllDigits(s)
    decreases s
  {
    if s == [] then acc else DecimalFrom(10 * acc + DigitValue(s[0]), s[1..])
  }

  /** The value of the decimal digit string `s`. */
  function DecimalValue(s: string): nat
    requires AllDigits(s)
  {
    DecimalFrom(0, s)
  }

  /** Why `strconv.ParseUint` refused its input: `ErrSyntax` or `ErrRange`. */
  datatype NumError = Syntax | Range

  /** The digit loop of `strconv.ParseUint` for base 10 and bit size 32,
      continuing from the value `acc` read so far: the first non-digit is a
      syntax error unless the digits before it already overflowed. */
  function ParseDigits(acc: u32, s: string): Result<u32, NumError>
    decreases s
  {
    if s == [] then Ok(acc)
    else if !IsDigit(s[0]) then Err(Syntax)
    else
      var next := 10 * acc + DigitValue(s[0]);
      if next > MaxUint32 then Err(Range) else ParseDigits(next, s[1..])
  }

  /** `strconv.ParseUint(s, 10, 32)`: the empty string is a syntax error;
      no sign, base prefix or underscore is accepted. */
  function ParseUint32(s: string): Result<u32, NumError>
  {
    if s == [] then Err(Syntax) else ParseDigits(0, s)
  }

  lemma {:induction false} DecimalFromGrows(acc: nat, s: string)
    requires AllDigits(s)
    ensures DecimalFrom(acc, s) >= acc
    decreases s
  {
    if s != [] {
      DecimalFromGrows(10 * acc + DigitValue(s[0]), s[1..]);
    }
  }

  lemma {:induction false} ParseDigitsMeaning(acc: u32, s: string)
    ensures ParseDigits(acc, s).Ok? <==> AllDigits(s) && DecimalFrom(acc, s) <= MaxUint32
    ensures ParseDigits(acc, s).Ok? ==> ParseDigits(acc, s).value == DecimalFrom(acc, s)
    decreases s
  {
    if s != [] {
      if !IsDigit(s[0]) {
        assert !AllDigits(s);
      } else {
        var next := 10 * acc + DigitValue(s[0]);
        assert AllDigits(s) <==> AllDigits(s[1..]);
        if next > MaxUint32 {
          if AllDigits(s) {
            DecimalFromGrows(next, s[1..]);
          }
        } else {
          ParseDigitsMeaning(next, s[1..]);
        }
      }
    }
  }

  /** `ParseUint32` accepts exactly the non-empty digit strings whose value
      fits in 32 bits, and returns that value. */
  lemma ParseUint32Meaning(s: string)
    ensures ParseUint32(s).Ok? <==> s != [] && AllDigits(s) && DecimalValue(s) <= MaxUint32
    ensures ParseUint32(s).Ok? ==> ParseUint32(s).value == DecimalValue(s)
  {
    if s != [] {
      ParseDigitsMeaning(0, s);
    }
  }

  /** `strconv.FormatUint(n, 10)`. */
  function FormatDecimal(n: nat): (s: string)
    ensures s != [] && AllDigits(s)
  {
    if n < 10 then [DigitChar(n)] else FormatDecimal(n / 10) + [DigitChar(n % 10)]
  }

  function DigitChar(d: nat): (c: char)
    requires d < 10
    ensures IsDigit(c) && DigitValue(c) == d
  {
    ('0' as int + d) as char
  }

  lemma {:induction false} DecimalFromAppend(acc: nat, s: string, c: char)
    requires AllDigits(s) && IsDigit(c)
    ensures AllDigits(s + [c])
    ensures DecimalFrom(acc, s + [c]) == 10 * DecimalFrom(acc, s) + DigitValue(c)
    decreases s
  {
    if s == [] {
      assert (s + [c])[1..] == [];
    } else {
      assert (s + [c])[1..] == s[1..] + [c];
      DecimalFromAppend(10 * acc + DigitValue(s[0]), s[1..], c);
    }
  }

  lemma {:induction false} FormatDecimalValue(n: nat)
    ensures DecimalValue(FormatDecimal(n)) == n
  {
    if n < 10 {
      var s := [DigitChar(n)];
      assert s[1..] == [];
      assert DecimalFrom(0, s) == DecimalFrom(DigitValue(s[0]), s[1..]);
    } else {
      FormatDecimalValue(n / 10);
      DecimalFromAppend(0, FormatDecimal(n / 10), DigitChar(n % 10));
    }
  }

  /** Parsing the decimal form of a `uint32` gives it back. */
  lemma ParseFormatRoundTrip(n: u32)
    ensures ParseUint32(FormatDecimal(n)) == Ok(n)
  {
    FormatDecimalValue(n);
    ParseUint32Meaning(FormatDecimal(n));
  }

  // ---------------------------------------------------------------------
  // filepath.Base with '/' as the only separator

  function TrimTrailingSlashes(p: string): (t: string)
    ensures t <= p
    ensures t != [] ==> t[|t| - 1] != '/'
  {
    if p != [] && p[|p| - 1] == '/' then TrimTrailingSlashes(p[..|p| - 1]) else p
  }

  /** The part of `p` after its last '/'. */
  function LastElement(p: string): (e: string)
    ensures '/' !in e
    ensures |e| <= |p| && e == p[|p| - |e|..]
    ensures |e| < |p| ==> p[|p| - |e| - 1] == '/'
  {
    if p == [] || p[|p| - 1] == '/' then []
    else LastElement(p[..|p| - 1]) + [p[|p| - 1]]
  }

  /** `filepath.Base`: the last element of `path` after trailing slashes are
      removed; "." for the empty path and "/" for a path of slashes only. */
  function Base(path: string): (b: string)
    ensures b != []
    ensures b == "/" || '/' !in b
  {
    if path == [] then "."
    else
      var p := TrimTrailingSlashes(path);
      if p == [] then "/" else LastElement(p)
  }

  /** Trailing slashes are all that is trimmed: any other character survives. */
  lemma {:induction false} TrimKeepsNonSlash(p: string, i: nat)
    requires i < |p| && p[i] != '/'
    ensures TrimTrailingSlashes(p) != []
    decreases |p|
  {
    if p[|p| - 1] == '/' {
      TrimKeepsNonSlash(p[..|p| - 1], i);
    }
  }

  /** A path with a character other than '/' has a base name without '/':
      only a path of slashes has the base "/". */
  lemma BaseHasNoSlash(p: string, i: nat)
    requires i < |p| && p[i] != '/'
    ensures Base(p) != "/" && '/' !in Base(p)
  {
    TrimKeepsNonSlash(p, i);
  }

  /** A relative path, such as an archive entry name, has a base name without '/'. */
  lemma BaseOfRelativePath(p: string)
    ensures p != [] && p[0] != '/' ==> '/' !in Base(p)
  {
    if p != [] && p[0] != '/' {
      BaseHasNoSlash(p, 0);
    }
  }

  /** The base of `dir + "/" + name` is `name`, for a name without slashes. */
  lemma BaseOfJoined(dir: string, name: string)
    requires name != [] && '/' !in name
    ensures Base(dir + "/" + name) == name
  {
    var p := dir + "/" + name;
    assert p[|p| - 1] == name[|name| - 1];
    LastElementOfJoined(dir + "/", name);
  }

  lemma {:induction false} LastElementOfJoined(prefix: string, name: string)
    requires prefix != [] && prefix[|prefix| - 1] == '/' && '/' !in name
    ensures LastElement(prefix + name) == name
  {
    if name == [] {
      assert prefix + name == prefix;
    } else {
      assert (prefix + name)[..|prefix + name| - 1] == prefix + name[..|name| - 1];
      LastElementOfJoined(prefix, name[..|name| - 1]);
    }
  }
}
