/** accounts/hd.go: derivation paths of hierarchical deterministic wallets, read and printed. */
module HdPaths {
  const HARDENED := 0x8000_0000
  type uint32 = n: int | 0 <= n <= 0xFFFF_FFFF
  type Path = seq<uint32>

  datatype PathError = EmptyPath | AmbiguousPath | InvalidComponent | OutOfRange
  datatype Parsed = Ok(path: Path) | Err(error: PathError)
  datatype Number = NoNumber | Value(n: int)

  const DEFAULT_ROOT: Path := [HARDENED + 44, HARDENED + 60, HARDENED + 0, 0]

  // Strings

  /** strings.Split by "/": always at least one part. */
  function Split(s: string): (parts: seq<string>)
    ensures |parts| >= 1
  {
    if s == [] then [[]]
    else
      var rest := Split(s[1..]);
      if s[0] == '/' then [[]] + rest else [[s[0]] + rest[0]] + rest[1..]
  }

  function Join(parts: seq<string>): string
    requires |parts| >= 1
  {
    if |parts| == 1 then parts[0] else parts[0] + "/" + Join(parts[1..])
  }

  /** Splitting loses nothing and leaves no separator. */
  lemma {:induction false} JoinSplit(s: string)
    ensures Join(Split(s)) == s && forall i :: 0 <= i < |Split(s)| ==> '/' !in Split(s)[i]
  {
    if s != [] {
      JoinSplit(s[1..]);
      var rest := Split(s[1..]);
      assert s == [s[0]] + s[1..];
      if s[0] == '/' {
        assert ([[]] + rest)[1..] == rest;
      } else {
        var head := [s[0]] + rest[0];
        assert ([head] + rest[1..])[1..] == rest[1..];
        assert |rest| > 1 ==> head + "/" + Join(rest[1..]) == [s[0]] + (rest[0] + "/" + Join(rest[1..]));
      }
    }
  }

  lemma {:induction false} SplitJoin(a: string, b: string)
    requires '/' !in a
    ensures Split(a + "/" + b) == [a] + Split(b)
    decreases |a|
  {
    var s := a + "/" + b;
    if a == [] {
      assert s == ['/'] + b && s[1..] == b;
    } else {
      assert s[1..] == a[1..] + "/" + b;
      SplitJoin(a[1..], b);
      assert ([a[1..]] + Split(b))[1..] == Split(b);
      assert a == [a[0]] + a[1..];
    }
  }

  lemma {:induction false} SplitNone(a: string)
    requires '/' !in a
    ensures Split(a) == [a]
    decreases |a|
  {
    if a != [] {
      SplitNone(a[1..]);
      assert a == [a[0]] + a[1..];
    }
  }

  /** unicode.IsSpace */
  predicate IsSpace(c: char) {
    c in {'\t', '\n', '\U{0B}', '\U{0C}', '\r', ' ', '\U{85}', '\U{A0}', '\U{1680}', '\U{2028}', '\U{2029}', '\U{202F}',
          '\U{205F}', '\U{3000}'} || '\U{2000}' <= c <= '\U{200A}'
  }

  function TrimSpace(s: string): string {
    if s == [] then []
    else if IsSpace(s[0]) then TrimSpace(s[1..])
    else if IsSpace(s[|s| - 1]) then TrimSpace(s[..|s| - 1])
    else s
  }

  ghost predicate AllSpace(s: string) { forall i :: 0 <= i < |s| ==> IsSpace(s[i]) }

  lemma NoSpace()
    ensures AllSpace([])
  {
  }

  lemma SpaceMore(c: char, s: string)
    requires IsSpace(c) && AllSpace(s)
    ensures AllSpace([c] + s) && AllSpace(s + [c])
  {
    hide IsSpace;
  }

  lemma NotSpace(c: char)
    requires '0' <= c <= '9' || c == '\'' || c == '-'
    ensures !IsSpace(c)
  {
  }

  /** Exactly the whitespace at both ends goes. */
  lemma {:induction false} TrimExactly(s: string) returns (l: string, r: string)
    ensures s == l + TrimSpace(s) + r && AllSpace(l) && AllSpace(r)
    ensures var t := TrimSpace(s); t != [] ==> !IsSpace(t[0]) && !IsSpace(t[|t| - 1])
    decreases |s|
  {
    hide IsSpace, AllSpace;
    NoSpace();
    l, r := [], [];
    if s != [] {
      var n := |s| - 1;
      if IsSpace(s[0]) {
        l, r := TrimExactly(s[1..]);
        SpaceMore(s[0], l);
        assert s == [s[0]] + s[1..] == [s[0]] + (l + TrimSpace(s[1..]) + r);
        assert [s[0]] + (l + TrimSpace(s[1..]) + r) == ([s[0]] + l) + TrimSpace(s[1..]) + r;
        l := [s[0]] + l;
      } else if IsSpace(s[n]) {
        l, r := TrimExactly(s[..n]);
        SpaceMore(s[n], r);
        assert s == s[..n] + [s[n]] == (l + TrimSpace(s[..n]) + r) + [s[n]];
        assert (l + TrimSpace(s[..n]) + r) + [s[n]] == l + TrimSpace(s[..n]) + (r + [s[n]]);
        r := r + [s[n]];
      }
    }
  }

  /** A text without whitespace at its ends is what is left of it with whitespace around. */
  lemma {:induction false} TrimAround(l: string, t: string, r: string)
    requires AllSpace(l) && AllSpace(r) && t != [] && !IsSpace(t[0]) && !IsSpace(t[|t| - 1])
    ensures TrimSpace(l + t + r) == t
    decreases |l| + |r|
  {
    hide IsSpace;
    var s := l + t + r;
    if l != [] {
      assert s[1..] == l[1..] + t + r && IsSpace(s[0]);
      TrimAround(l[1..], t, r);
    } else if r != [] {
      var n := |r| - 1;
      assert s[0] == t[0] && s[|s| - 1] == r[n] && s[..|s| - 1] == l + t + r[..n];
      TrimAround(l, t, r[..n]);
    } else {
      assert s == t;
    }
  }

  lemma NothingToTrim(t: string)
    requires t != [] && !IsSpace(t[0]) && !IsSpace(t[|t| - 1])
    ensures TrimSpace(t) == t
  {
    hide IsSpace, TrimSpace;
    NoSpace();
    TrimAround([], t, []);
    assert [] + t + [] == t;
  }

  // Numbers

  function DigitOf(c: char): nat {
    if '0' <= c <= '9' then c as int - '0' as int
    else if 'a' <= c <= 'z' then c as int - 'a' as int + 10
    else if 'A' <= c <= 'Z' then c as int - 'A' as int + 10
    else 36
  }

  /** The number with one more digit. */
  function Append(acc: nat, base: nat, d: nat): nat { acc * base + d }

  /** The digits of a number, underscores between them; `sep` tells whether one may come next. */
  function Digits(s: string, base: nat, acc: nat, sep: bool): Number {
    if s == [] then if sep then Value(acc) else NoNumber
    else if s[0] == '_' then if sep then Digits(s[1..], base, acc, false) else NoNumber
    else if DigitOf(s[0]) < base then Digits(s[1..], base, Append(acc, base, DigitOf(s[0])), true)
    else NoNumber
  }

  function Prefixed(s: string, base: nat): Number {
    if s == [] then NoNumber else Digits(s, base, 0, true)
  }

  /** A number without sign; its prefix tells the base. */
  function Unsigned(s: string): Number {
    if s == [] then NoNumber
    else if s[0] != '0' then Digits(s, 10, 0, false)
    else if |s| == 1 then Value(0)
    else if s[1] in "bB" then Prefixed(s[2..], 2)
    else if s[1] in "oO" then Prefixed(s[2..], 8)
    else if s[1] in "xX" then Prefixed(s[2..], 16)
    else Digits(s[1..], 8, 0, true)
  }

  /** big.Int.SetString in base 0. */
  function SetString(s: string): Number {
    if s == [] then NoNumber
    else if s[0] == '+' then Unsigned(s[1..])
    else if s[0] == '-' then
      match Unsigned(s[1..])
      case Value(n) => Value(-n)
      case NoNumber => NoNumber
    else Unsigned(s)
  }

  /** The "%d" format. */
  function Decimal(n: nat): string {
    if n < 10 then [('0' as int + n) as char] else Decimal(n / 10) + [('0' as int + n % 10) as char]
  }

  ghost predicate AllDigits(s: string) { s != [] && forall i :: 0 <= i < |s| ==> '0' <= s[i] <= '9' }

  lemma {:induction false} DecimalDigits(n: nat)
    ensures AllDigits(Decimal(n)) && (n > 0 ==> Decimal(n)[0] != '0') && (n < 10 ==> |Decimal(n)| == 1)
  {
    if n >= 10 {
      DecimalDigits(n / 10);
    }
  }

  /** A digit, and a number in some base up to sixteen. */
  function Digit(d: nat): (c: char)
    requires d < 16
    ensures DigitOf(c) == d && c != '_'
  {
    if d < 10 then ('0' as int + d) as char else ('a' as int + (d - 10)) as char
  }

  ghost predicate DigitsOf(s: string, base: nat) { s != [] && forall i :: 0 <= i < |s| ==> s[i] != '_' && DigitOf(s[i]) < base }

  lemma Shrinks(n: nat, base: nat, q: nat, r: nat)
    requires n == q * base + r && 2 <= base <= n && 0 <= r < base
    ensures q < n
  {
    assert q * base >= q * 2;
  }

  lemma Quotient(n: nat, base: nat)
    requires 2 <= base <= n
    ensures n / base < n && n % base < base
  {
    var q, r := n / base, n % base;
    Shrinks(n, base, q, r);
  }

  function Numeral(n: nat, base: nat): (s: string)
    requires 2 <= base <= 16
    ensures DigitsOf(s, base)
  {
    if n < base then [Digit(n)] else Quotient(n, base); Numeral(n / base, base) + [Digit(n % base)]
  }

  lemma {:induction false} OneMoreDigit(s: string, d: char, base: nat, acc: nat, sep: bool)
    requires DigitsOf(s, base) && DigitsOf([d], base)
    ensures Digits(s, base, acc, sep).Value? && Digits(s, base, acc, sep).n >= 0
    ensures Digits(s + [d], base, acc, sep) == Value(Append(Digits(s, base, acc, sep).n, base, DigitOf(d)))
    decreases |s|
  {
    hide DigitOf, Append;
    assert [d][0] == d && s[0] != '_' && DigitOf(s[0]) < base;
    var acc' := Append(acc, base, DigitOf(s[0]));
    assert (s + [d])[1..] == s[1..] + [d];
    if |s| == 1 {
      assert s[1..] == [] && [d][1..] == [] && s[1..] + [d] == [d];
      assert Digits([d], base, acc', true) == Digits([], base, Append(acc', base, DigitOf(d)), true);
    } else {
      OneMoreDigit(s[1..], d, base, acc', true);
    }
  }

  lemma DivideOut(n: nat, base: nat)
    requires base > 0
    ensures Append(n / base, base, n % base) == n
  {
  }

  lemma OneDigit(n: nat, base: nat, sep: bool)
    requires n < base && 2 <= base <= 16
    ensures Digits([Digit(n)], base, 0, sep) == Value(n)
  {
    var s := [Digit(n)];
    assert s[1..] == [];
    assert Append(0, base, n) == n;
    assert Digits([], base, n, true) == Value(n);
  }

  lemma {:induction false} ReadNumeral(n: nat, base: nat, sep: bool)
    requires 2 <= base <= 16
    ensures Digits(Numeral(n, base), base, 0, sep) == Value(n)
    decreases n
  {
    hide DigitOf, Append, Digit;
    if n < base {
      OneDigit(n, base, sep);
    } else {
      Quotient(n, base);
      ReadNumeral(n / base, base, sep);
      OneMoreDigit(Numeral(n / base, base), Digit(n % base), base, 0, sep);
      DivideOut(n, base);
    }
  }

  lemma {:induction false} DecimalNumeral(n: nat)
    ensures Numeral(n, 10) == Decimal(n)
  {
    if n >= 10 {
      DecimalNumeral(n / 10);
    }
  }

  /** A printed number is read back. */
  lemma DecimalBack(n: nat)
    ensures SetString(Decimal(n)) == Value(n)
  {
    DecimalDigits(n);
    DecimalNumeral(n);
    ReadNumeral(n, 10, false);
  }

  // Paths

  /** One component: whitespace around it and before the hardening mark does not matter. */
  function ParseComponent(part: string): (r: Parsed)
    ensures r.Ok? ==> |r.path| == 1
  {
    var trimmed := TrimSpace(part);
    var hardened := trimmed != [] && trimmed[|trimmed| - 1] == '\'';
    var digits := if hardened then TrimSpace(trimmed[..|trimmed| - 1]) else trimmed;
    var value := if hardened then HARDENED else 0;
    match SetString(digits)
    case NoNumber => Err(InvalidComponent)
    case Value(n) => if n < 0 || n > 0xFFFF_FFFF - value then Err(OutOfRange) else Ok([value + n])
  }

  /** The components one by one; the first bad one decides the error. */
  function ParseAll(parts: seq<string>): Parsed {
    if parts == [] then Ok([])
    else
      var init := ParseAll(parts[..|parts| - 1]);
      if init.Err? then init
      else
        var last := ParseComponent(parts[|parts| - 1]);
        if last.Err? then last else Ok(init.path + last.path)
  }

  function ParsePath(path: string): Parsed {
    var parts := Split(path);
    if TrimSpace(parts[0]) == "" then Err(AmbiguousPath)
    else if TrimSpace(parts[0]) == "m" then if |parts| == 1 then Err(EmptyPath) else ParseAll(parts[1..])
    else
      var r := ParseAll(parts);
      if r.Err? then r else Ok(DEFAULT_ROOT + r.path)
  }

  lemma NoComponents(parts: seq<string>)
    ensures ParseAll(parts[..0]) == Ok([])
  {
  }

  lemma NextComponent(parts: seq<string>, i: nat)
    requires i < |parts| && ParseAll(parts[..i]).Ok?
    ensures var piece := ParseComponent(parts[i]);
            ParseAll(parts[..i + 1]) == if piece.Err? then piece else Ok(ParseAll(parts[..i]).path + piece.path)
  {
    hide ParseComponent;
    assert parts[..i + 1][..i] == parts[..i];
  }

  lemma {:induction false} FirstError(parts: seq<string>, i: nat)
    requires i <= |parts| && ParseAll(parts[..i]).Err?
    ensures ParseAll(parts) == ParseAll(parts[..i])
    decreases |parts| - i
  {
    if i < |parts| {
      assert parts[..i + 1][..i] == parts[..i];
      FirstError(parts, i + 1);
    } else {
      assert parts[..i] == parts;
    }
  }

  /** ParseDerivationPath. */
  method ParseDerivationPath(path: string) returns (r: Parsed)
    ensures r == ParsePath(path)
    ensures r.Ok? ==> r.path != []
  {
    hide ParseComponent, TrimSpace, Split, ParseAll;
    var result: Path := [];
    var components := Split(path);
    if TrimSpace(components[0]) == "" {
      return Err(AmbiguousPath);
    } else if TrimSpace(components[0]) == "m" {
      components := components[1..];
    } else {
      result := result + DEFAULT_ROOT;
    }
    if |components| == 0 {
      return Err(EmptyPath);
    }
    ghost var root := result;
    NoComponents(components);
    for i := 0 to |components|
      invariant ParseAll(components[..i]).Ok? && result == root + ParseAll(components[..i]).path && |result| == |root| + i
    {
      NextComponent(components, i);
      var piece := ParseComponent(components[i]);
      if piece.Err? {
        FirstError(components, i + 1);
        return piece;
      }
      result := result + piece.path;
    }
    assert components[..|components|] == components;
    return Ok(result);
  }

  function Component(c: uint32): string {
    if c >= HARDENED then Decimal(c - HARDENED) + "'" else Decimal(c)
  }

  function Print(path: Path): string {
    if path == [] then "m" else Print(path[..|path| - 1]) + "/" + Component(path[|path| - 1])
  }

  /** DerivationPath.String. */
  method PathString(path: Path) returns (result: string)
    ensures result == Print(path)
  {
    result := "m";
    for i := 0 to |path|
      invariant result == Print(path[..i])
    {
      assert path[..i + 1][..i] == path[..i];
      var component, hardened := path[i], false;
      if component >= HARDENED {
        component, hardened := component - HARDENED, true;
      }
      ghost var before := result;
      result := result + "/" + Decimal(component);
      if hardened {
        result := result + "'";
        assert result == before + "/" + (Decimal(component) + "'");
      }
    }
    assert path[..|path|] == path;
  }

  lemma ComponentBack(c: uint32)
    ensures ParseComponent(Component(c)) == Ok([c]) && '/' !in Component(c)
  {
    var n := if c >= HARDENED then c - HARDENED else c;
    DecimalDigits(n);
    DecimalBack(n);
    var d := Decimal(n);
    hide TrimSpace, IsSpace, SetString, Decimal;
    NotSpace(d[0]);
    NotSpace(d[|d| - 1]);
    NotSpace('\'');
    NothingToTrim(d);
    if c >= HARDENED {
      var s := d + "'";
      NothingToTrim(s);
      assert s[|s| - 1] == '\'' && s[..|s| - 1] == d;
    }
  }

  ghost function Components(path: Path): seq<string> {
    if path == [] then [] else Components(path[..|path| - 1]) + [Component(path[|path| - 1])]
  }

  lemma {:induction false} SplitEnd(a: string, b: string)
    requires '/' !in b
    ensures Split(a + "/" + b) == Split(a) + [b]
    decreases |a|
  {
    var s := a + "/" + b;
    if a == [] {
      SplitJoin([], b);
      SplitNone(b);
      assert [] + "/" + b == s;
    } else {
      assert s[1..] == a[1..] + "/" + b && s[0] == a[0];
      SplitEnd(a[1..], b);
      var rest := Split(a[1..]);
      assert (rest + [b])[1..] == rest[1..] + [b] && (rest + [b])[0] == rest[0];
    }
  }

  lemma {:induction false} SplitPrint(path: Path)
    ensures Split(Print(path)) == ["m"] + Components(path)
  {
    if path == [] {
      SplitNone("m");
    } else {
      var n := |path| - 1;
      SplitPrint(path[..n]);
      ComponentBack(path[n]);
      SplitEnd(Print(path[..n]), Component(path[n]));
    }
  }

  lemma {:induction false} ParseComponents(path: Path)
    ensures |Components(path)| == |path| && ParseAll(Components(path)) == Ok(path)
  {
    hide ParseComponent, Component;
    if path != [] {
      var n := |path| - 1;
      ParseComponents(path[..n]);
      ComponentBack(path[n]);
      assert path == path[..n] + [path[n]];
      var parts := Components(path);
      assert parts[..|parts| - 1] == Components(path[..n]);
    }
  }

  /** What is printed is read back, hardened indices included; only the empty path is not. */
  lemma RoundTrip(path: Path)
    ensures ParsePath(Print(path)) == if path == [] then Err(EmptyPath) else Ok(path)
  {
    SplitPrint(path);
    ParseComponents(path);
    var parts := Split(Print(path));
    assert parts[1..] == Components(path);
    assert TrimSpace("m") == "m";
  }

  lemma PrintInjective(p: Path, q: Path)
    requires Print(p) == Print(q)
    ensures p == q
  {
    RoundTrip(p);
    RoundTrip(q);
  }

  lemma {:induction false} ParsedSize(parts: seq<string>)
    ensures ParseAll(parts).Ok? ==> |ParseAll(parts).path| == |parts|
  {
    if parts != [] {
      ParsedSize(parts[..|parts| - 1]);
    }
  }

  /** Printing an accepted path gives a text that means the same. */
  lemma ParsePrintParse(s: string)
    requires ParsePath(s).Ok?
    ensures ParsePath(Print(ParsePath(s).path)) == ParsePath(s)
  {
    var parts := Split(s);
    ParsedSize(parts);
    ParsedSize(parts[1..]);
    RoundTrip(ParsePath(s).path);
  }

  lemma {:induction false} PrintStart(path: Path)
    requires path != []
    ensures |Print(path)| >= 2 && Print(path)[..2] == "m/"
  {
    if |path| == 1 {
      assert path[..0] == [];
    } else {
      PrintStart(path[..|path| - 1]);
    }
  }

  lemma {:induction false} FirstComponent(path: Path)
    requires path != []
    ensures Components(path) != [] && Components(path)[0] == Component(path[0])
  {
    if |path| > 1 {
      FirstComponent(path[..|path| - 1]);
    }
  }

  lemma NotRoot(c: uint32)
    ensures TrimSpace(Component(c)) == Component(c) && Component(c) != "" && Component(c) != "m"
  {
    hide TrimSpace, IsSpace, Decimal;
    var t := Component(c);
    DecimalDigits(if c >= HARDENED then c - HARDENED else c);
    NotSpace(t[0]);
    NotSpace(t[|t| - 1]);
    NothingToTrim(t);
  }

  /** Without "m/" in front, what is printed is read as relative to m/44'/60'/0'/0. */
  lemma RelativeTrip(path: Path)
    requires path != []
    ensures |Print(path)| >= 2 && Print(path)[..2] == "m/"
    ensures ParsePath(Print(path)[2..]) == Ok([0x8000_002C, 0x8000_003C, 0x8000_0000, 0] + path)
  {
    hide ParseComponent, Component, Split, Print, Components, ParseAll, TrimSpace;
    PrintStart(path);
    var rest := Print(path)[2..];
    assert Print(path) == "m" + "/" + rest;
    SplitJoin("m", rest);
    SplitPrint(path);
    assert Split(rest) == Components(path) by {
      assert (["m"] + Split(rest))[1..] == Split(rest) && (["m"] + Components(path))[1..] == Components(path);
    }
    ParseComponents(path);
    FirstComponent(path);
    NotRoot(path[0]);
  }

  /** A prefix tells the base: 0x sixteen, 0b two, 0o eight. */
  lemma PrefixBack(n: nat, c: char, base: nat)
    requires (c in "xX" && base == 16) || (c in "bB" && base == 2) || (c in "oO" && base == 8)
    ensures SetString(['0', c] + Numeral(n, base)) == Value(n)
  {
    hide Digits;
    ReadNumeral(n, base, true);
    var s := ['0', c] + Numeral(n, base);
    assert s[2..] == Numeral(n, base);
  }

  /** So does a mere 0: eight. */
  lemma OctalBack(n: nat)
    ensures SetString("0" + Numeral(n, 8)) == Value(n)
  {
    hide Digits;
    ReadNumeral(n, 8, true);
    var s := "0" + Numeral(n, 8);
    assert s[1..] == Numeral(n, 8) && DigitOf(s[1]) < 8;
  }

  lemma SignedBack(n: nat)
    ensures SetString("+" + Decimal(n)) == Value(n)
    ensures SetString("-" + Decimal(n)) == Value(0 - n)
  {
    hide Digits;
    DecimalDigits(n);
    DecimalNumeral(n);
    ReadNumeral(n, 10, false);
    assert ("+" + Decimal(n))[1..] == Decimal(n) && ("-" + Decimal(n))[1..] == Decimal(n);
    assert n == 0 ==> Decimal(n) == "0";
  }

  /** A component is accepted up to 2^32 - 1, with a mark up to 2^31 - 1 and 2^31 more is meant, and
      whitespace around it does not matter. */
  lemma ComponentExactly(n: nat, l: string, r: string)
    requires AllSpace(l) && AllSpace(r)
    ensures ParseComponent(l + Decimal(n) + r) == if n <= 0xFFFF_FFFF then Ok([n]) else Err(OutOfRange)
    ensures ParseComponent(l + (Decimal(n) + "'") + r) == if n <= 0x7FFF_FFFF then Ok([0x8000_0000 + n]) else Err(OutOfRange)
    ensures n > 0 ==> ParseComponent(l + ("-" + Decimal(n)) + r) == Err(OutOfRange)
  {
    hide SetString, TrimSpace, AllSpace, Decimal, IsSpace;
    DecimalDigits(n);
    DecimalBack(n);
    SignedBack(n);
    var d := Decimal(n);
    NotSpace(d[0]);
    NotSpace(d[|d| - 1]);
    NotSpace('\'');
    NotSpace('-');
    TrimAround(l, d, r);
    TrimAround(l, d + "'", r);
    NothingToTrim(d);
    TrimAround(l, "-" + d, r);
    assert (d + "'")[..|d|] == d;
  }
}
