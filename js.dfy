/**
 * The parts of JavaScript's value and string semantics that the web client's
 * list pages, exporters and validators rely on: truthiness of optional fields,
 * `toLowerCase`, `includes`, `length` and the `<` order on strings (both over
 * UTF-16 code units), `join`, `trim`,
 * `String(n)` for integers, and a JSON value for untyped server responses.
 */
module Js {

  datatype Option<+T> = None | Some(value: T)

  /** The `||` fallback on an optional string: an absent or empty string is falsy. */
  function OrElse(s: string, fallback: string): (r: string)
    ensures r == s || r == fallback
    ensures r == s <==> s != "" || fallback == s
  {
    if s != "" then s else fallback
  }

  /** An optional string in a condition: present and non-empty. */
  predicate Present(s: Option<string>) {
    s.Some? && s.value != ""
  }

  /** `a || b || ... || ''`: the first present candidate, or the empty string. */
  function FirstPresent(candidates: seq<Option<string>>): (r: string)
    ensures r == "" <==> forall x :: x in candidates ==> !Present(x)
  {
    if candidates == [] then ""
    else if Present(candidates[0]) then candidates[0].value
    else FirstPresent(candidates[1..])
  }

  /** A non-empty result is the first present candidate. */
  lemma {:induction false} FirstPresentSpec(candidates: seq<Option<string>>)
    ensures var r := FirstPresent(candidates);
      r != "" ==> exists i :: (0 <= i < |candidates| && candidates[i] == Some(r)
        && forall j :: 0 <= j < i ==> !Present(candidates[j]))
  {
    if candidates != [] && !Present(candidates[0]) {
      var r := FirstPresent(candidates[1..]);
      FirstPresentSpec(candidates[1..]);
      if r != "" {
        var i :| 0 <= i < |candidates[1..]| && candidates[1..][i] == Some(r)
          && forall j :: 0 <= j < i ==> !Present(candidates[1..][j]);
        assert candidates[i + 1] == Some(r);
      }
    }
  }

  // ---------------------------------------------------------------------------
  // toLowerCase

  function ToLowerChar(c: char): (r: char)
    ensures 'A' <= c <= 'Z' ==> 'a' <= r <= 'z'
    ensures !('A' <= c <= 'Z') ==> r == c
  {
    if 'A' <= c <= 'Z' then (c as int - 'A' as int + 'a' as int) as char else c
  }

  /** `s.toLowerCase()` on the ASCII letters; every other character is kept. */
  function ToLower(s: string): (r: string)
    ensures |r| == |s|
    ensures forall i :: 0 <= i < |s| ==> r[i] == ToLowerChar(s[i])
  {
    seq(|s|, i requires 0 <= i < |s| => ToLowerChar(s[i]))
  }

  lemma ToLowerIdempotent(s: string)
    ensures ToLower(ToLower(s)) == ToLower(s)
  {
    assert forall i :: 0 <= i < |s| ==> ToLower(ToLower(s))[i] == ToLower(s)[i];
  }

  // ---------------------------------------------------------------------------
  // includes

  predicate IsPrefix(p: string, s: string) {
    |p| <= |s| && s[..|p|] == p
  }

  /** `s.includes(sub)`: `sub` occurs in `s` at some position. */
  predicate Includes(s: string, sub: string)
    decreases |s|
  {
    IsPrefix(sub, s) || (s != [] && Includes(s[1..], sub))
  }

  /** `sub` sits in `s` starting at index `i`. */
  predicate OccursAt(s: string, sub: string, i: int) {
    0 <= i <= |s| - |sub| && s[i..i + |sub|] == sub
  }

  /** `includes` is exactly "occurs at some index". */
  lemma {:induction false} IncludesAt(s: string, sub: string)
    ensures Includes(s, sub) <==> exists i :: OccursAt(s, sub, i)
    decreases |s|
  {
    if Includes(s, sub) {
      if !IsPrefix(sub, s) {
        IncludesAt(s[1..], sub);
        var i :| OccursAt(s[1..], sub, i);
        assert s[i + 1..i + 1 + |sub|] == s[1..][i..i + |sub|];
        assert OccursAt(s, sub, i + 1);
      } else {
        assert OccursAt(s, sub, 0);
      }
    }
    if exists i :: OccursAt(s, sub, i) {
      var i :| OccursAt(s, sub, i);
      if i == 0 {
        assert IsPrefix(sub, s);
      } else {
        assert s[1..][i - 1..i - 1 + |sub|] == s[i..i + |sub|];
        assert OccursAt(s[1..], sub, i - 1);
        IncludesAt(s[1..], sub);
      }
    }
  }

  /** Every string includes the empty string (an empty search keeps every row). */
  lemma IncludesEmpty(s: string)
    ensures Includes(s, "")
  {
    assert IsPrefix("", s);
  }

  /** A string includes itself. */
  lemma IncludesSelf(s: string)
    ensures Includes(s, s)
  {
    assert s[..|s|] == s;
  }

  /** The case-insensitive substring test used by every search box. */
  predicate ContainsIgnoreCase(s: string, term: string) {
    Includes(ToLower(s), ToLower(term))
  }

  // ---------------------------------------------------------------------------
  // UTF-16: JavaScript strings are sequences of 16-bit code units, so `length`
  // counts code units and `<` compares them; a character outside the Basic
  // Multilingual Plane is a surrogate pair.

  /** The UTF-16 code units of one character. */
  function CodeUnits(c: char): (r: seq<int>)
    ensures |r| == (if c as int < 0x10000 then 1 else 2)
    ensures forall k :: 0 <= k < |r| ==> 0 <= r[k] < 0x10000
    ensures c as int >= 0x10000 ==> 0xD800 <= r[0] < 0xDC00 && 0xDC00 <= r[1] < 0xE000
  {
    if c as int < 0x10000 then [c as int]
    else [0xD800 + (c as int - 0x10000) / 0x400, 0xDC00 + (c as int - 0x10000) % 0x400]
  }

  /** The code units JavaScript stores for a string. */
  function Utf16(s: string): (r: seq<int>)
    ensures |s| <= |r| <= 2 * |s|
    ensures r == [] <==> s == []
    decreases |s|
  {
    if s == [] then [] else CodeUnits(s[0]) + Utf16(s[1..])
  }

  /** `s.length`: one per character of the Basic Multilingual Plane, two per surrogate pair. */
  function Length(s: string): (r: nat)
    ensures r == |Utf16(s)|
    ensures |s| <= r <= 2 * |s|
    ensures r == |s| <==> forall k :: 0 <= k < |s| ==> s[k] as int < 0x10000
    ensures (forall k :: 0 <= k < |s| ==> s[k] as int >= 0x10000) ==> r == 2 * |s|
    decreases |s|
  {
    if s == [] then 0
    else
      var rest := Length(s[1..]);
      assert forall k :: 1 <= k < |s| ==> s[k] == s[1..][k - 1];
      (if s[0] as int < 0x10000 then 1 else 2) + rest
  }

  /** Two characters whose encodings start two equal unit sequences are equal, and so are the rests. */
  lemma CodeUnitsPrefixFree(c: char, d: char, x: seq<int>, y: seq<int>)
    requires CodeUnits(c) + x == CodeUnits(d) + y
    ensures c == d && x == y
  {
    var u, v := CodeUnits(c), CodeUnits(d);
    assert u[0] == (u + x)[0] == (v + y)[0] == v[0];
    if c as int >= 0x10000 && d as int >= 0x10000 {
      assert u[1] == (u + x)[1] == (v + y)[1] == v[1];
      var p, q := c as int - 0x10000, d as int - 0x10000;
      assert p == 0x400 * (p / 0x400) + p % 0x400;
      assert q == 0x400 * (q / 0x400) + q % 0x400;
    }
    assert c == d;
    assert x == (u + x)[|u|..] == (v + y)[|v|..] == y;
  }

  /** Different strings have different encodings. */
  lemma {:induction false} Utf16Injective(a: string, b: string)
    requires Utf16(a) == Utf16(b)
    ensures a == b
    decreases |a|
  {
    if a != [] && b != [] {
      CodeUnitsPrefixFree(a[0], b[0], Utf16(a[1..]), Utf16(b[1..]));
      Utf16Injective(a[1..], b[1..]);
      assert a == [a[0]] + a[1..] && b == [b[0]] + b[1..];
    }
  }

  /** Lexicographic order on code-unit sequences. */
  predicate UnitsLess(x: seq<int>, y: seq<int>)
    decreases |x|
  {
    if x == [] then y != []
    else if y == [] then false
    else if x[0] != y[0] then x[0] < y[0]
    else UnitsLess(x[1..], y[1..])
  }

  lemma {:induction false} UnitsLessIrreflexive(x: seq<int>)
    ensures !UnitsLess(x, x)
    decreases |x|
  {
    if x != [] { UnitsLessIrreflexive(x[1..]); }
  }

  lemma {:induction false} UnitsLessTransitive(x: seq<int>, y: seq<int>, z: seq<int>)
    requires UnitsLess(x, y) && UnitsLess(y, z)
    ensures UnitsLess(x, z)
    decreases |x|
  {
    if x != [] && y != [] && z != [] && x[0] == y[0] && y[0] == z[0] {
      UnitsLessTransitive(x[1..], y[1..], z[1..]);
    }
  }

  lemma {:induction false} UnitsLessTotal(x: seq<int>, y: seq<int>)
    ensures x == y || UnitsLess(x, y) || UnitsLess(y, x)
    decreases |x|
  {
    if x != [] && y != [] && x[0] == y[0] {
      UnitsLessTotal(x[1..], y[1..]);
      if x[1..] == y[1..] {
        assert x == [x[0]] + x[1..] && y == [y[0]] + y[1..];
      }
    }
  }

  lemma {:induction false} UnitsLessAsymmetric(x: seq<int>, y: seq<int>)
    requires UnitsLess(x, y)
    ensures !UnitsLess(y, x)
    decreases |x|
  {
    if x != [] && y != [] && x[0] == y[0] {
      UnitsLessAsymmetric(x[1..], y[1..]);
    }
  }

  /** `a < b` on strings, and the order of the default `Array.prototype.sort`: code unit by code unit. */
  predicate LexLess(a: string, b: string) {
    UnitsLess(Utf16(a), Utf16(b))
  }

  lemma LexLessIrreflexive(a: string)
    ensures !LexLess(a, a)
  {
    UnitsLessIrreflexive(Utf16(a));
  }

  lemma LexLessTransitive(a: string, b: string, c: string)
    requires LexLess(a, b) && LexLess(b, c)
    ensures LexLess(a, c)
  {
    UnitsLessTransitive(Utf16(a), Utf16(b), Utf16(c));
  }

  /** Two different strings are always ordered one way or the other. */
  lemma LexLessTotal(a: string, b: string)
    ensures a == b || LexLess(a, b) || LexLess(b, a)
  {
    UnitsLessTotal(Utf16(a), Utf16(b));
    if Utf16(a) == Utf16(b) {
      Utf16Injective(a, b);
    }
  }

  lemma LexLessAsymmetric(a: string, b: string)
    requires LexLess(a, b)
    ensures !LexLess(b, a)
  {
    UnitsLessAsymmetric(Utf16(a), Utf16(b));
  }

  /**
   * The code-unit order is not the order of code points: a character outside
   * the Basic Multilingual Plane sorts before one from U+E000 to U+FFFF.
   */
  lemma SurrogatePairBeforeHighBmp(c: char, d: char, x: string, y: string)
    requires c as int >= 0x10000 && 0xE000 <= d as int < 0x10000
    ensures LexLess([c] + x, [d] + y)
  {
    assert ([c] + x)[0] == c && ([c] + x)[1..] == x;
    assert ([d] + y)[0] == d && ([d] + y)[1..] == y;
    assert Utf16([c] + x)[0] == CodeUnits(c)[0];
    assert Utf16([d] + y)[0] == d as int;
  }

  /** Among characters of the Basic Multilingual Plane the order is the order of the characters. */
  lemma BmpCharsCompareByValue(c: char, d: char, x: string, y: string)
    requires c as int < 0x10000 && d as int < 0x10000 && c != d
    ensures LexLess([c] + x, [d] + y) <==> c < d
  {
    assert ([c] + x)[0] == c && ([c] + x)[1..] == x;
    assert ([d] + y)[0] == d && ([d] + y)[1..] == y;
    assert Utf16([c] + x)[0] == c as int;
    assert Utf16([d] + y)[0] == d as int;
  }

  // ---------------------------------------------------------------------------
  // join, String(n), trim

  /** `parts.join(sep)`. */
  function Join(parts: seq<string>, sep: string): (r: string)
    ensures parts == [] ==> r == ""
    ensures |parts| == 1 ==> r == parts[0]
  {
    if parts == [] then ""
    else if |parts| == 1 then parts[0]
    else parts[0] + sep + Join(parts[1..], sep)
  }

  /** A character in neither the parts nor the separator is not in their join. */
  lemma {:induction false} JoinAvoids(parts: seq<string>, sep: string, c: char)
    requires c !in sep && forall k :: 0 <= k < |parts| ==> c !in parts[k]
    ensures c !in Join(parts, sep)
    decreases |parts|
  {
    if |parts| > 1 {
      JoinAvoids(parts[1..], sep, c);
    }
  }

  /** `s.split(sep)` for a one-character separator. */
  function Split(s: string, sep: char): (r: seq<string>)
    ensures |r| >= 1
    ensures forall k :: 0 <= k < |r| ==> sep !in r[k]
    decreases |s|
  {
    if s == [] then [""]
    else
      var rest := Split(s[1..], sep);
      if s[0] == sep then [""] + rest
      else [[s[0]] + rest[0]] + rest[1..]
  }

  /** Joining with a one-character separator that no part contains, then splitting, gives back the parts. */
  lemma {:induction false} SplitJoin(parts: seq<string>, sep: char)
    requires |parts| >= 1
    requires forall k :: 0 <= k < |parts| ==> sep !in parts[k]
    ensures Split(Join(parts, [sep]), sep) == parts
    decreases |parts|, |parts[0]|
  {
    if parts[0] != [] {
      var tail := [parts[0][1..]] + parts[1..];
      assert sep !in parts[0][1..];
      SplitJoin(tail, sep);
      if |parts| == 1 {
        assert Join(parts, [sep])[1..] == Join(tail, [sep]);
      } else {
        assert Join(parts, [sep])[1..] == Join(tail, [sep]);
      }
      assert [parts[0][0]] + parts[0][1..] == parts[0];
    } else if |parts| > 1 {
      SplitJoin(parts[1..], sep);
      assert Join(parts, [sep])[1..] == Join(parts[1..], [sep]);
    }
  }

  function DigitChar(d: nat): (c: char)
    requires d < 10
    ensures '0' <= c <= '9'
  {
    "0123456789"[d]
  }

  /** Decimal text of a natural number, as `String(n)` prints it. */
  function NatToString(n: nat): (r: string)
    ensures |r| >= 1
    ensures forall k :: 0 <= k < |r| ==> '0' <= r[k] <= '9'
    decreases n
  {
    if n < 10 then [DigitChar(n)] else NatToString(n / 10) + [DigitChar(n % 10)]
  }

  /** `String(n)` for an integer. */
  function IntToString(n: int): (r: string)
    ensures |r| >= 1
    ensures r[0] == '-' <==> n < 0
  {
    if n < 0 then "-" + NatToString(-n) else NatToString(n)
  }

  /** Value of a non-empty string of decimal digits. */
  function DigitsValue(s: string): (n: nat)
    requires forall k :: 0 <= k < |s| ==> '0' <= s[k] <= '9'
    decreases |s|
  {
    if s == [] then 0 else DigitsValue(s[..|s| - 1]) * 10 + (s[|s| - 1] as int - '0' as int)
  }

  lemma {:induction false} DigitsValueOfNat(n: nat)
    ensures DigitsValue(NatToString(n)) == n
    decreases n
  {
    if n >= 10 {
      var s := NatToString(n);
      assert s[..|s| - 1] == NatToString(n / 10);
      DigitsValueOfNat(n / 10);
    }
  }

  lemma NatToStringInjective(m: nat, n: nat)
    requires NatToString(m) == NatToString(n)
    ensures m == n
  {
    DigitsValueOfNat(m);
    DigitsValueOfNat(n);
  }

  lemma IntToStringInjective(m: int, n: int)
    requires IntToString(m) == IntToString(n)
    ensures m == n
  {
    if m < 0 && n < 0 {
      assert IntToString(m)[1..] == NatToString(-m);
      assert IntToString(n)[1..] == NatToString(-n);
      NatToStringInjective(-m, -n);
    } else if m >= 0 && n >= 0 {
      NatToStringInjective(m, n);
    }
  }

  /**
   * The characters `trim` removes: the ECMAScript WhiteSpace code points (tab,
   * vertical tab, form feed, space, no-break space, byte-order mark and the
   * other space separators) and the LineTerminator code points.
   */
  predicate IsWhite(c: char) {
    c == '\t' || c == '\U{000B}' || c == '\U{000C}' || c == ' ' || c == '\U{00A0}' || c == '\U{FEFF}'
    || c == '\U{1680}' || ('\U{2000}' <= c <= '\U{200A}') || c == '\U{202F}' || c == '\U{205F}' || c == '\U{3000}'
    || c == '\n' || c == '\r' || c == '\U{2028}' || c == '\U{2029}'
  }

  /** `s.trimStart()`: the suffix left after the leading white space. */
  function TrimStart(s: string): (r: string)
    ensures |r| <= |s| && r == s[|s| - |r|..]
    ensures forall k :: 0 <= k < |s| - |r| ==> IsWhite(s[k])
    ensures r == [] || !IsWhite(r[0])
    decreases |s|
  {
    if s != [] && IsWhite(s[0]) then
      assert forall k :: 1 <= k < |s| ==> s[k] == s[1..][k - 1];
      TrimStart(s[1..])
    else s
  }

  /** `s.trimEnd()`: the prefix left before the trailing white space. */
  function TrimEnd(s: string): (r: string)
    ensures |r| <= |s| && r == s[..|r|]
    ensures forall k :: |r| <= k < |s| ==> IsWhite(s[k])
    ensures r == [] || !IsWhite(r[|r| - 1])
    decreases |s|
  {
    if s != [] && IsWhite(s[|s| - 1]) then TrimEnd(s[..|s| - 1]) else s
  }

  /** Every character of `s` before index `i` and from index `j` on is white space. */
  predicate WhiteOutside(s: string, i: int, j: int) {
    && 0 <= i <= j <= |s|
    && (forall k :: 0 <= k < i ==> IsWhite(s[k]))
    && (forall k :: j <= k < |s| ==> IsWhite(s[k]))
  }

  /**
   * `s.trim()`: the text with a white prefix and a white suffix removed, and
   * nothing else; what is left neither starts nor ends with white space.
   */
  function Trim(s: string): (r: string)
    ensures |r| <= |s|
    ensures exists i, j :: WhiteOutside(s, i, j) && r == s[i..j]
    ensures r == [] || (!IsWhite(r[0]) && !IsWhite(r[|r| - 1]))
  {
    var t := TrimStart(s);
    var r := TrimEnd(t);
    TrimBounds(s, t, r);
    assert r != [] ==> r[0] == t[0];
    r
  }

  /** A white prefix cut off `s` leaves `t`, and a white suffix cut off `t` leaves `r`. */
  lemma TrimBounds(s: string, t: string, r: string)
    requires |t| <= |s| && t == s[|s| - |t|..] && forall k :: 0 <= k < |s| - |t| ==> IsWhite(s[k])
    requires |r| <= |t| && r == t[..|r|] && forall k :: |r| <= k < |t| ==> IsWhite(t[k])
    ensures WhiteOutside(s, |s| - |t|, |s| - |t| + |r|) && r == s[|s| - |t|..|s| - |t| + |r|]
  {
    var i := |s| - |t|;
    var j := i + |r|;
    forall k | j <= k < |s| ensures IsWhite(s[k]) {
      assert s[k] == t[k - i];
    }
  }

  /** The trimmed text is empty exactly when every character is white space. */
  lemma TrimEmptyIffAllWhite(s: string)
    ensures Trim(s) == "" <==> forall k :: 0 <= k < |s| ==> IsWhite(s[k])
  {
    var r := Trim(s);
    var i, j :| WhiteOutside(s, i, j) && r == s[i..j];
    if r != [] {
      assert r[0] == s[i];
    }
  }

  lemma {:induction false} TrimIdempotent(s: string)
    ensures Trim(Trim(s)) == Trim(s)
  {
    var t := Trim(s);
    TrimEndStartClean(TrimStart(s));
  }

  lemma {:induction false} TrimEndStartClean(s: string)
    requires s == [] || !IsWhite(s[0])
    ensures TrimStart(TrimEnd(s)) == TrimEnd(s)
    ensures TrimEnd(TrimEnd(s)) == TrimEnd(s)
  {
  }

  // ---------------------------------------------------------------------------
  // Untyped server responses

  /**
   * A JSON value as a response body arrives in the client. Arrays hold
   * records of the page's own type `T`; objects keep their keys in order.
   */
  datatype Json<T> =
    | Undefined
    | Null
    | Bool(b: bool)
    | Num(n: int)
    | Str(s: string)
    | Arr(items: seq<T>)
    | Obj(fields: seq<(string, Json<T>)>)

  /** JavaScript truthiness of a value. */
  predicate Truthy<T>(v: Json<T>) {
    match v
    case Undefined => false
    case Null => false
    case Bool(b) => b
    case Num(n) => n != 0
    case Str(s) => s != ""
    case Arr(_) => true
    case Obj(_) => true
  }

  /** Property access `v[key]`: the first field of that name, else undefined. */
  function Get<T>(v: Json<T>, key: string): (r: Json<T>)
    ensures r != Undefined ==> v.Obj?
  {
    if v.Obj? then Lookup(v.fields, key) else Undefined
  }

  function Lookup<T>(fields: seq<(string, Json<T>)>, key: string): (r: Json<T>)
    ensures r == Undefined || exists k :: 0 <= k < |fields| && fields[k] == (key, r)
  {
    if fields == [] then Undefined
    else if fields[0].0 == key then fields[0].1
    else Lookup(fields[1..], key)
  }

  /** `a || b` on values: `a` when truthy, else `b`. */
  function Or<T>(a: Json<T>, b: Json<T>): (r: Json<T>)
    ensures Truthy(a) ==> r == a
    ensures !Truthy(a) ==> r == b
  {
    if Truthy(a) then a else b
  }
}
