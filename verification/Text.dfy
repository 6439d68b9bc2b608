/** Text conversions of the Go standard library that discovery, naming, CDI generation and
    allocation rely on: strconv.Itoa and Atoi, fmt's %04x, strings.TrimPrefix and TrimLeft,
    and path cleaning. */
module Text {

  datatype Option<+T> = None | Some(value: T)

  datatype Result<+T, +E> = Ok(value: T) | Err(error: E)

  const MIN_INT64 := -0x8000_0000_0000_0000
  const MAX_INT64 := 0x7fff_ffff_ffff_ffff

  predicate IsInt64(n: int) {
    MIN_INT64 <= n <= MAX_INT64
  }

  /** Go's int on the 64-bit platforms the plugin is built for. */
  type GoInt = n: int | IsInt64(n)

  type UInt16 = n: int | 0 <= n < 0x1_0000

  // ---------------------------------------------------------------- decimal

  predicate IsDigit(c: char) {
    '0' <= c <= '9'
  }

  predicate IsLetter(c: char) {
    'a' <= c <= 'z' || 'A' <= c <= 'Z'
  }

  function DigitChar(d: nat): char
    requires d < 10
  {
    '0' + d as char
  }

  function DigitValue(c: char): nat
    requires IsDigit(c)
  {
    c as int - '0' as int
  }

  function Decimal(n: nat): (s: string)
    ensures |s| > 0 && forall i | 0 <= i < |s| :: IsDigit(s[i])
  {
    if n < 10 then [DigitChar(n)] else Decimal(n / 10) + [DigitChar(n % 10)]
  }

  function Itoa(n: int): string {
    if n < 0 then "-" + Decimal(-n) else Decimal(n)
  }

  predicate AllDigits(s: string) {
    forall i | 0 <= i < |s| :: IsDigit(s[i])
  }

  function DecimalValue(s: string): nat
    requires AllDigits(s)
  {
    if s == [] then 0 else 10 * DecimalValue(s[..|s| - 1]) + DigitValue(s[|s| - 1])
  }

  function Signed(negative: bool, digits: string): Option<GoInt> {
    if digits == [] || !AllDigits(digits) then None else
      var magnitude: int := DecimalValue(digits);
      var v := if negative then -magnitude else magnitude;
      if IsInt64(v) then Some(v) else None
  }

  /** strconv.Atoi: an optional sign, at least one decimal digit, and a value that fits a machine int. */
  function Atoi(s: string): Option<GoInt> {
    if s != [] && s[0] in "+-" then Signed(s[0] == '-', s[1..]) else Signed(false, s)
  }

  lemma {:induction false} DecimalRoundTrip(n: nat)
    ensures AllDigits(Decimal(n)) && DecimalValue(Decimal(n)) == n
  {
    if n >= 10 {
      DecimalRoundTrip(n / 10);
      assert Decimal(n)[..|Decimal(n)| - 1] == Decimal(n / 10);
    } else {
      assert Decimal(n)[..0] == [];
    }
  }

  lemma AtoiOfItoa(n: int)
    ensures Atoi(Itoa(n)) == if IsInt64(n) then Some(n) else None
  {
    DecimalRoundTrip(if n < 0 then -n else n);
    if n < 0 {
      assert Itoa(n)[1..] == Decimal(-n);
    }
  }

  lemma {:induction false} LeadingZero(s: string)
    requires AllDigits(s)
    ensures AllDigits("0" + s) && DecimalValue("0" + s) == DecimalValue(s)
  {
    var t := "0" + s;
    if s != "" {
      assert t[..|t| - 1] == "0" + s[..|s| - 1];
      LeadingZero(s[..|s| - 1]);
    }
  }

  /** A plus sign changes nothing, leading zeros included; text with anything else but digits after its first character,
      or with nothing after a sign, is malformed. */
  lemma AtoiForms(s: string)
    ensures AllDigits(s) ==> Atoi("+" + s) == Atoi(s)
    ensures (exists i | 1 <= i < |s| :: !IsDigit(s[i])) ==> Atoi(s) == None
    ensures s == "" || s == "+" || s == "-" ==> Atoi(s) == None
    ensures s != "" && !IsDigit(s[0]) && s[0] != '+' && s[0] != '-' ==> Atoi(s) == None
    ensures AllDigits(s) ==> Atoi("0" + s) == if s == "" then Some(0) else Atoi(s)
  {
    assert ("+" + s)[1..] == s;
    if i :| 1 <= i < |s| && !IsDigit(s[i]) {
      assert s[1..][i - 1] == s[i];
    }
    if AllDigits(s) {
      LeadingZero(s);
    }
  }

  lemma ItoaInjective(m: int, n: int)
    requires Itoa(m) == Itoa(n)
    ensures m == n
  {
    DecimalRoundTrip(if m < 0 then -m else m);
    DecimalRoundTrip(if n < 0 then -n else n);
    if m < 0 || n < 0 {
      assert Itoa(m)[0] == Itoa(n)[0];
      assert m < 0 && n < 0;
      assert Itoa(m)[1..] == Decimal(-m) && Itoa(n)[1..] == Decimal(-n);
    }
  }

  // ---------------------------------------------------------------- hexadecimal device ids

  function HexChar(d: nat): char
    requires d < 16
  {
    if d < 10 then '0' + d as char else 'a' + (d - 10) as char
  }

  function HexValue(c: char): nat {
    if IsDigit(c) then DigitValue(c) else if 'a' <= c <= 'f' then c as int - 'a' as int + 10 else 0
  }

  /** The low `width` hexadecimal digits of n, zero-padded. */
  function HexDigits(n: nat, width: nat): string {
    if width == 0 then "" else HexDigits(n / 16, width - 1) + [HexChar(n % 16)]
  }

  /** fmt.Sprintf("%04x", n) */
  function Hex4(n: UInt16): string {
    HexDigits(n, 4)
  }

  function HexNumber(s: string): nat
    decreases |s|
  {
    if s == [] then 0 else 16 * HexNumber(s[..|s| - 1]) + HexValue(s[|s| - 1])
  }

  function Pow16(width: nat): nat {
    if width == 0 then 1 else 16 * Pow16(width - 1)
  }

  lemma {:induction false} HexRoundTrip(n: nat, width: nat)
    requires n < Pow16(width)
    ensures HexNumber(HexDigits(n, width)) == n
  {
    if width > 0 {
      HexRoundTrip(n / 16, width - 1);
      var s := HexDigits(n, width);
      assert s[..|s| - 1] == HexDigits(n / 16, width - 1);
    }
  }

  /** The four-digit hexadecimal form identifies a 16-bit PCI device id. */
  lemma Hex4Injective(m: UInt16, n: UInt16)
    requires Hex4(m) == Hex4(n)
    ensures m == n
  {
    assert Pow16(4) == 0x1_0000;
    HexRoundTrip(m, 4);
    HexRoundTrip(n, 4);
  }

  lemma {:induction false} HexShape(n: nat, width: nat)
    ensures |HexDigits(n, width)| == width
    ensures forall c | c in HexDigits(n, width) :: '0' <= c <= '9' || 'a' <= c <= 'f'
  {
    if width > 0 {
      HexShape(n / 16, width - 1);
    }
  }

  /** The form has four digits, the letters among them lower-case. */
  lemma Hex4Shape(n: UInt16)
    ensures |Hex4(n)| == 4 && forall c | c in Hex4(n) :: '0' <= c <= '9' || 'a' <= c <= 'f'
  {
    HexShape(n, 4);
  }

  // ---------------------------------------------------------------- trimming

  predicate HasPrefix(s: string, prefix: string) {
    prefix <= s
  }

  function TrimPrefix(s: string, prefix: string): string {
    if HasPrefix(s, prefix) then s[|prefix|..] else s
  }

  /** strings.TrimLeft over the ASCII letters. */
  function TrimLetters(s: string): string {
    if s != [] && IsLetter(s[0]) then TrimLetters(s[1..]) else s
  }

  lemma {:induction false} TrimLettersOfPrefix(letters: string, rest: string)
    requires forall c | c in letters :: IsLetter(c)
    requires rest == [] || !IsLetter(rest[0])
    ensures TrimLetters(letters + rest) == rest
  {
    if letters == [] {
      assert letters + rest == rest;
    } else {
      assert letters[0] in letters && forall c | c in letters[1..] :: c in letters;
      assert (letters + rest)[1..] == letters[1..] + rest;
      TrimLettersOfPrefix(letters[1..], rest);
    }
  }

  // ---------------------------------------------------------------- paths

  /** A cleaned absolute path, as its components: /dev/vfio is ["dev", "vfio"]. */
  type Path = seq<string>

  /** The text between consecutive separators. */
  function Split(s: string, sep: char): (cs: seq<string>)
    ensures |cs| > 0
  {
    if s == [] then [""]
    else
      var rest := Split(s[1..], sep);
      if s[0] == sep then [""] + rest else [[s[0]] + rest[0]] + rest[1..]
  }

  /** Lexical cleaning of further components below `dir`, as filepath.Clean does it on an absolute path. */
  function Resolve(dir: Path, components: seq<string>): Path
    decreases |components|
  {
    if components == [] then dir
    else
      var c := components[0];
      var next :=
        if c == "" || c == "." then dir
        else if c == ".." then (if dir == [] then [] else dir[..|dir| - 1])
        else dir + [c];
      Resolve(next, components[1..])
  }

  /** filepath.Join(dir, name) for a cleaned absolute directory. */
  function Join(dir: Path, name: string): Path {
    Resolve(dir, Split(name, '/'))
  }

  lemma {:induction false} SplitWithout(s: string, sep: char)
    requires sep !in s
    ensures Split(s, sep) == [s]
  {
    if s != [] {
      assert s[0] in s && forall c | c in s[1..] :: c in s;
      SplitWithout(s[1..], sep);
      assert [s[0]] + s[1..] == s;
    }
  }

  /** A name that stands for one component of a path. */
  predicate PlainName(name: string) {
    '/' !in name && name !in ["", ".", ".."]
  }

  /** A directory-entry name is a child of the directory it is joined to. */
  lemma JoinName(dir: Path, name: string)
    requires PlainName(name)
    ensures Join(dir, name) == dir + [name]
  {
    SplitWithout(name, '/');
    assert Resolve(dir + [name], []) == dir + [name];
  }

  lemma {:induction false} ResolveOn(dir: Path, a: seq<string>, b: seq<string>)
    ensures Resolve(dir, a + b) == Resolve(Resolve(dir, a), b)
    decreases |a|
  {
    if a == [] {
      assert a + b == b;
    } else {
      assert (a + b)[1..] == a[1..] + b;
      ResolveOn(Resolve(dir, [a[0]]), a[1..], b);
      assert Resolve(dir, [a[0]]) == Resolve(Resolve(dir, [a[0]]), []);
    }
  }

  /** The current directory and empty components stand for nothing; two dots go up, and no further than the root. */
  lemma JoinDots(dir: Path)
    ensures Join(dir, "") == dir && Join(dir, ".") == dir
    ensures Join(dir, "..") == if dir == [] then [] else dir[..|dir| - 1]
  {
    SplitWithout("", '/');
    SplitWithout(".", '/');
    SplitWithout("..", '/');
    assert [".."][1..] == [] && ["."][1..] == [] && [""][1..] == [];
  }

  lemma {:induction false} SplitAfter(a: string, sep: char, b: string)
    ensures Split(a + [sep] + b, sep) == Split(a, sep) + Split(b, sep)
  {
    var s := a + [sep] + b;
    if a == [] {
      assert s[1..] == b;
    } else {
      assert s[1..] == a[1..] + [sep] + b;
      SplitAfter(a[1..], sep, b);
    }
  }

  /** A name with a slash is joined part by part. */
  lemma JoinNested(dir: Path, a: string, b: string)
    ensures Join(dir, a + "/" + b) == Join(Join(dir, a), b)
  {
    SplitAfter(a, '/', b);
    assert a + "/" + b == a + ['/'] + b;
    ResolveOn(dir, Split(a, '/'), Split(b, '/'));
  }
}
