/**
 * The few pieces of JavaScript the compiler leans on: exceptions as a
 * `Result`, truthiness of dynamically typed values, `String.prototype.split`
 * and `Array.prototype.join`, number formatting and `isNaN` on strings.
 */
module Js {

  datatype Option<+T> = None | Some(value: T)

  /** A thrown `Error`: its message and the optional `field` property that
      generated code attaches while unwinding. */
  datatype Error = Error(message: string, field: Option<string>)

  /** The outcome of a call that may throw. */
  datatype Result<+T> = Ok(value: T) | Err(error: Error) {
    predicate IsFailure() { Err? }
    function PropagateFailure<U>(): Result<U>
      requires Err?
    {
      Err(error)
    }
    function Extract(): T
      requires Ok?
    {
      value
    }
  }

  /** `throw new Error(message)` */
  function Throw<T>(message: string): Result<T> {
    Err(Error(message, None))
  }

  /** A JavaScript value as far as the compiled-protocol facade sees it.
      Numbers are integers here; `Object` stands for any object or array that
      cannot be called, `Function` for one that can; both are truthy. */
  datatype JsValue = Undefined | Null | Bool(b: bool) | Number(n: int) | Str(s: string) | Object(id: nat) | Function(id: nat)

  predicate Truthy(v: JsValue) {
    match v
    case Undefined => false
    case Null => false
    case Bool(b) => b
    case Number(n) => n != 0
    case Str(s) => s != ""
    case Object(_) => true
    case Function(_) => true
  }

  // ---------------------------------------------------------------------
  // split / join

  /** `s.split(d)` for a one-character separator: never empty, and no piece
      contains the separator. */
  function Split(s: string, d: char): (parts: seq<string>)
    ensures |parts| >= 1
    ensures forall p <- parts :: d !in p
  {
    if s == [] then [""]
    else
      var rest := Split(s[1..], d);
      if s[0] == d then [""] + rest
      else [[s[0]] + rest[0]] + rest[1..]
  }

  /** `parts.join(sep)` */
  function Join(parts: seq<string>, sep: string): string {
    if |parts| == 0 then ""
    else if |parts| == 1 then parts[0]
    else parts[0] + sep + Join(parts[1..], sep)
  }

  /** Concatenation regroups freely. */
  lemma Assoc<T>(x: seq<T>, y: seq<T>, z: seq<T>)
    ensures x + (y + z) == x + y + z
  {
  }

  /** Splitting a piece free of the separator, followed by more text, glues the
      piece onto the first part of the rest. */
  lemma {:induction false} SplitPrefix(p: string, t: string, d: char)
    requires d !in p
    ensures Split(p + t, d) == [p + Split(t, d)[0]] + Split(t, d)[1..]
  {
    if p != [] {
      calc {
        Split(p + t, d);
        { assert (p + t)[1..] == p[1..] + t; }
        [[p[0]] + Split(p[1..] + t, d)[0]] + Split(p[1..] + t, d)[1..];
        { SplitPrefix(p[1..], t, d); }
        [[p[0]] + (p[1..] + Split(t, d)[0])] + Split(t, d)[1..];
        { assert [p[0]] + (p[1..] + Split(t, d)[0]) == p + Split(t, d)[0]; }
        [p + Split(t, d)[0]] + Split(t, d)[1..];
      }
    } else {
      assert p + t == t;
      assert p + Split(t, d)[0] == Split(t, d)[0];
      assert Split(t, d) == [Split(t, d)[0]] + Split(t, d)[1..];
    }
  }

  /** Joining pieces free of the separator and splitting again gives the pieces back. */
  lemma {:induction false} SplitJoin(parts: seq<string>, d: char)
    requires |parts| >= 1
    requires forall p <- parts :: d !in p
    ensures Split(Join(parts, [d]), d) == parts
  {
    if |parts| == 1 {
      SplitPrefix(parts[0], "", d);
      assert parts[0] + "" == parts[0];
    } else {
      var rest := Join(parts[1..], [d]);
      SplitJoin(parts[1..], d);
      assert parts[0] + [d] + rest == parts[0] + ([d] + rest);
      SplitPrefix(parts[0], [d] + rest, d);
      assert ([d] + rest)[1..] == rest;
      assert parts[0] + "" == parts[0];
      assert [parts[0]] + parts[1..] == parts;
    }
  }

  /** Splitting and joining again gives the text back. */
  lemma {:induction false} JoinSplit(s: string, d: char)
    ensures Join(Split(s, d), [d]) == s
  {
    if s != [] {
      JoinSplit(s[1..], d);
      var rest := Split(s[1..], d);
      if s[0] == d {
        assert [""] + rest == [""] + rest;
        assert s == [d] + s[1..];
      } else if |rest| == 1 {
        assert s == [s[0]] + s[1..];
      } else {
        assert Join([[s[0]] + rest[0]] + rest[1..], [d]) == [s[0]] + rest[0] + [d] + Join(rest[1..], [d]);
        assert s == [s[0]] + s[1..];
      }
    }
  }

  /** Text free of the separator splits into itself. */
  lemma SplitFree(s: string, d: char)
    requires d !in s
    ensures Split(s, d) == [s]
  {
    SplitPrefix(s, "", d);
    assert s + "" == s;
  }

  /** Splitting at a separator splits the two sides independently. */
  lemma {:induction false} SplitConcat(a: string, b: string, d: char)
    ensures Split(a + [d] + b, d) == Split(a, d) + Split(b, d)
  {
    if a == [] {
      assert a + [d] + b == [d] + b;
      assert ([d] + b)[1..] == b;
    } else {
      SplitConcat(a[1..], b, d);
      if a[0] == d {
        SplitConcatSep(a, b, d);
      } else {
        SplitConcatOther(a, b, d);
      }
    }
  }

  /** `Split` peels one character. */
  lemma SplitCons(c: char, t: string, d: char)
    ensures Split([c] + t, d) ==
      if c == d then [""] + Split(t, d) else [[c] + Split(t, d)[0]] + Split(t, d)[1..]
  {
    assert ([c] + t)[1..] == t;
  }

  /** The inductive step of `SplitConcat` when `a` starts with the separator:
      an empty first part on both sides. */
  lemma SplitConcatSep(a: string, b: string, d: char)
    requires a != [] && a[0] == d
    requires Split(a[1..] + [d] + b, d) == Split(a[1..], d) + Split(b, d)
    ensures Split(a + [d] + b, d) == Split(a, d) + Split(b, d)
  {
    assert a + [d] + b == [d] + (a[1..] + [d] + b);
    assert a == [d] + a[1..];
    SplitCons(d, a[1..] + [d] + b, d);
    SplitCons(d, a[1..], d);
    Assoc([""], Split(a[1..], d), Split(b, d));
  }

  /** The inductive step of `SplitConcat` otherwise: the first character
      joins the first part on both sides. */
  lemma SplitConcatOther(a: string, b: string, d: char)
    requires a != [] && a[0] != d
    requires Split(a[1..] + [d] + b, d) == Split(a[1..], d) + Split(b, d)
    ensures Split(a + [d] + b, d) == Split(a, d) + Split(b, d)
  {
    var c := a[0];
    var first := Split(a[1..], d);
    var rest := Split(a[1..] + [d] + b, d);
    ConsSplit(a, [d] + b);
    Assoc(a, [d], b);
    Assoc(a[1..], [d], b);
    SplitCons(c, a[1..] + [d] + b, d);
    SplitCons(c, a[1..], d);
    HeadTail(first, Split(b, d));
    Assoc([[c] + first[0]], first[1..], Split(b, d));
  }

  /** A non-empty text is its first character and the rest, also in front of more text. */
  lemma ConsSplit<T>(a: seq<T>, t: seq<T>)
    requires a != []
    ensures a == [a[0]] + a[1..]
    ensures a + t == [a[0]] + (a[1..] + t)
  {
  }

  /** The head and tail of a concatenation whose left side is non-empty. */
  lemma HeadTail<T>(x: seq<T>, y: seq<T>)
    requires x != []
    ensures (x + y)[0] == x[0]
    ensures (x + y)[1..] == x[1..] + y
  {
  }

  /** Pieces and a separator free of `d` join into text free of `d`. */
  lemma {:induction false} JoinFree(parts: seq<string>, sep: string, d: char)
    requires d !in sep
    requires forall p <- parts :: d !in p
    ensures d !in Join(parts, sep)
  {
    if |parts| > 1 {
      JoinFree(parts[1..], sep, d);
    }
  }

  function StartsWith(s: string, prefix: string): bool {
    prefix <= s
  }

  // ---------------------------------------------------------------------
  // numbers as text

  predicate IsDigit(c: char) {
    '0' <= c <= '9'
  }

  function DigitChar(d: nat): char
    requires d < 10
  {
    "0123456789"[d]
  }

  /** The decimal text of a natural number, as `String(n)` prints it. */
  function NatToString(n: nat): (r: string)
    ensures |r| >= 1
    ensures forall c <- r :: IsDigit(c)
    ensures n >= 10 <==> |r| >= 2
    decreases n
  {
    if n < 10 then [DigitChar(n)] else NatToString(n / 10) + [DigitChar(n % 10)]
  }

  /** The decimal text of an integer, with a leading `-` for negatives. */
  function IntToString(n: int): string {
    if n < 0 then "-" + NatToString(-n) else NatToString(n)
  }

  // ---------------------------------------------------------------------
  // isNaN on strings

  /** The white space and line terminators that `Number(s)` trims. */
  predicate IsSpace(c: char) {
    c == ' ' || c == '\t' || c == '\n' || c == '\r' || c == '\U{000B}' || c == '\U{000C}' ||
    c == '\U{00A0}' || c == '\U{1680}' || '\U{2000}' <= c <= '\U{200A}' || c == '\U{2028}' ||
    c == '\U{2029}' || c == '\U{202F}' || c == '\U{205F}' || c == '\U{3000}' || c == '\U{FEFF}'
  }

  function TrimStart(s: string): (r: string)
    ensures r == [] || !IsSpace(r[0])
    ensures s != [] && !IsSpace(s[0]) ==> r == s
  {
    if s != [] && IsSpace(s[0]) then TrimStart(s[1..]) else s
  }

  function TrimEnd(s: string): (r: string)
    ensures r <= s
    ensures s != [] && !IsSpace(s[0]) ==> r != []
  {
    if s != [] && IsSpace(s[|s| - 1]) then TrimEnd(s[..|s| - 1]) else s
  }

  function Count(s: string, c: char): nat {
    if s == [] then 0 else (if s[0] == c then 1 else 0) + Count(s[1..], c)
  }

  function DigitCount(s: string): nat {
    if s == [] then 0 else (if IsDigit(s[0]) then 1 else 0) + DigitCount(s[1..])
  }

  /** One or more decimal digits. */
  predicate IsDigits(s: string) {
    |s| >= 1 && forall c <- s :: IsDigit(c)
  }

  /** The index of the first `e` or `E`, or the length when there is none. */
  function ExponentAt(s: string): (k: nat)
    ensures k <= |s|
  {
    if s == [] || s[0] == 'e' || s[0] == 'E' then 0 else 1 + ExponentAt(s[1..])
  }

  /** Digits with at most one decimal point and at least one digit. */
  predicate IsMantissa(s: string) {
    (forall c <- s :: IsDigit(c) || c == '.') && Count(s, '.') <= 1 && DigitCount(s) >= 1
  }

  /** The digits after `e`, with an optional sign. */
  predicate IsExponent(s: string) {
    if s != [] && (s[0] == '+' || s[0] == '-') then IsDigits(s[1..]) else IsDigits(s)
  }

  /** `Infinity`, or a mantissa with an optional exponent. */
  predicate IsUnsignedDecimal(s: string) {
    s == "Infinity" ||
    var k := ExponentAt(s);
    IsMantissa(s[..k]) && (k == |s| || IsExponent(s[k + 1..]))
  }

  predicate IsDecimal(s: string) {
    if s != [] && (s[0] == '+' || s[0] == '-') then IsUnsignedDecimal(s[1..]) else IsUnsignedDecimal(s)
  }

  predicate IsHexDigit(c: char) {
    IsDigit(c) || 'a' <= c <= 'f' || 'A' <= c <= 'F'
  }

  /** `0x…`, `0o…` or `0b…` with at least one digit of that base; no sign. */
  predicate IsNonDecimal(s: string) {
    |s| >= 3 && s[0] == '0' &&
    (((s[1] == 'x' || s[1] == 'X') && forall c <- s[2..] :: IsHexDigit(c)) ||
     ((s[1] == 'o' || s[1] == 'O') && forall c <- s[2..] :: '0' <= c <= '7') ||
     ((s[1] == 'b' || s[1] == 'B') && forall c <- s[2..] :: c == '0' || c == '1'))
  }

  /** `!isNaN(s)` for a string: after trimming white space the text is empty
      (which converts to 0) or a numeric literal. */
  predicate IsNumeric(s: string) {
    var t := TrimEnd(TrimStart(s));
    t == [] || IsDecimal(t) || IsNonDecimal(t)
  }

  /** Text that starts with anything other than white space, a sign, a digit,
      a point or the `I` of `Infinity` is not a number. */
  lemma NotNumeric(s: string)
    requires s != []
    requires !IsSpace(s[0]) && !IsDigit(s[0]) && s[0] != '+' && s[0] != '-' && s[0] != '.' && s[0] != 'I'
    ensures !IsNumeric(s)
  {
    var t := TrimEnd(TrimStart(s));
    assert TrimStart(s) == s;
    assert t != [] && t[0] == s[0];
    var k := ExponentAt(t);
    if k > 0 {
      assert t[..k][0] == t[0];
    } else {
      assert t[..k] == [];
    }
  }
}
