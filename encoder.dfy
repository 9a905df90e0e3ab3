/** The value encoder of the literal renderer: how one argument becomes the
    text of a SQL literal (the type switch of `convertParams`, with the
    helpers `toString`, `sliceToArray` and `isPrintable`). Go's dynamic
    types are replaced by the closed datatype `Value`. */
module Encoder {
  import opened Wrappers
  import opened Text

  newtype byte = b: int | 0 <= b < 256

  /** A time.Time: the zero instant, or an instant together with its
      rendering in the layout "2006-01-02 15:04:05.999" (Go's calendar
      formatting is not modelled, its output is carried as data). */
  datatype Instant = ZeroTime | At(formatted: string)

  /** An argument value, one case per branch of the encoder's type switch. */
  datatype Value =
    | Null                                 // an untyped nil
    | Bool(b: bool)
    | Int(i: int)                          // int, int8, ..., int64
    | Uint(u: nat)                         // uint, uint8, ..., uint64
    | Float(formatted: string)             // float32/64, already rendered with %.6f
    | Str(s: string)
    | Bytes(bytes: seq<byte>)
    | Time(t: Instant)
    | TimePtr(tp: Option<Instant>)         // *time.Time; None is a nil pointer
    | Valuer(produced: Option<Value>)      // driver.Valuer; None is a nil receiver,
                                           // else what Value() returns (its error is ignored)
    | Stringer(text: Option<string>)       // fmt.Stringer; None is a nil receiver
    | IntSlice(ints: seq<int>)             // []int, ..., []uint64 (not []byte)
    | StrSlice(strs: seq<string>)          // []string
    | Ptr(target: Option<Value>)           // a pointer to a modelled value; None is nil
    | NilRecordPtr                         // nil pointer to a struct or map type
    | Struct(fields: seq<Field>, printed: string)           // printed: fmt.Sprint of it
    | StrMap(entries: map<string, Value>, printed: string)  // map[string]any
    | Other(printed: string)               // any other kind, rendered by fmt.Sprint

  /** What a struct field holds: a value, or a pointer that may be nil. */
  datatype FieldContent = Direct(v: Value) | Pointer(target: Option<Value>)

  /** A struct field descriptor: exported or not, its `db` tag ("" when
      absent), its Go name and its content. */
  datatype Field = Field(exported: bool, dbTag: string, name: string, content: FieldContent)

  /** The key of an entry of the literal table: a 0-based position or a name. */
  datatype Key = IntKey(i: int) | NameKey(name: string)

  const NullLiteral := "NULL"
  const ZeroTimeText := "0000-00-00 00:00:00"
  const BinaryLiteral := "'<binary>'"

  /** unicode.IsPrint applied to a byte read as a rune (Latin-1): the ASCII
      graphic characters and space, and U+00A1..U+00FF except the soft
      hyphen U+00AD. */
  predicate IsPrintByte(b: byte)
  {
    (0x20 <= b <= 0x7E) || (0xA1 <= b && b != 0xAD)
  }

  predicate AllPrintable(s: seq<byte>)
  {
    forall i :: 0 <= i < |s| ==> IsPrintByte(s[i])
  }

  /** isPrintable: scans the bytes and stops at the first unprintable one. */
  method IsPrintable(s: seq<byte>) returns (ok: bool)
    ensures ok <==> AllPrintable(s)
    ensures !ok ==> exists i :: 0 <= i < |s| && !IsPrintByte(s[i])
  {
    for i := 0 to |s|
      invariant forall k :: 0 <= k < i ==> IsPrintByte(s[k])
    {
      if !IsPrintByte(s[i]) {
        return false;
      }
    }
    return true;
  }

  /** string(b) for a byte slice: one character per byte. */
  function BytesText(b: seq<byte>): (r: string)
    ensures |r| == |b|
  {
    seq(|b|, k requires 0 <= k < |b| => (b[k] as int) as char)
  }

  function TimeLiteral(t: Instant): string
  {
    match t
    case ZeroTime => "'" + ZeroTimeText + "'"
    case At(f) => "'" + f + "'"
  }

  /** An element of a slice handed to sliceToArray (the CustomContraint types). */
  datatype Scalar = IntS(i: int) | StrS(s: string)

  /** toString: integers in decimal; a string is quoted, and escaped unless
      it already contains the two characters `\'`. */
  function ToString(x: Scalar): string
  {
    match x
    case IntS(i) => IntToString(i)
    case StrS(s) =>
      if '\'' in s then
        (if ContainsEscapedQuote(s) then "'" + s + "'" else "'" + Escape(s) + "'")
      else "'" + s + "'"
  }

  function ElementTexts(xs: seq<Scalar>): (r: seq<string>)
    ensures |r| == |xs|
  {
    seq(|xs|, k requires 0 <= k < |xs| => ToString(xs[k]))
  }

  /** The array literal `ARRAY[e1, e2, ...]`. */
  function ArrayLiteral(xs: seq<Scalar>): string
  {
    "ARRAY[" + Join(ElementTexts(xs), ", ") + "]"
  }

  function IntScalars(xs: seq<int>): (r: seq<Scalar>)
    ensures |r| == |xs|
  {
    seq(|xs|, k requires 0 <= k < |xs| => IntS(xs[k]))
  }

  function StrScalars(xs: seq<string>): (r: seq<Scalar>)
    ensures |r| == |xs|
  {
    seq(|xs|, k requires 0 <= k < |xs| => StrS(xs[k]))
  }

  /** sliceToArray: renders each element with toString, in order, and joins. */
  method SliceToArray(v: seq<Scalar>) returns (r: string)
    ensures r == ArrayLiteral(v)
  {
    var str: seq<string> := [];
    for i := 0 to |v|
      invariant |str| == i
      invariant forall k :: 0 <= k < i ==> str[k] == ToString(v[k])
    {
      str := str + [ToString(v[i])];
    }
    assert str == ElementTexts(v);
    r := "ARRAY[" + Join(str, ", ") + "]";
  }

  /** The literal text of one value (the type switch of convertParams). */
  function Encode(v: Value): string
  {
    match v
    case Null => NullLiteral
    case Bool(b) => if b then "true" else "false"
    case Time(t) => TimeLiteral(t)
    case TimePtr(None) => NullLiteral
    case TimePtr(Some(t)) => TimeLiteral(t)
    case Valuer(None) => NullLiteral
    case Valuer(Some(x)) => Encode(x)
    case Stringer(None) => NullLiteral
    case Stringer(Some(text)) => Quote(text)
    case Bytes(b) => if AllPrintable(b) then Quote(BytesText(b)) else BinaryLiteral
    case Int(i) => IntToString(i)
    case Uint(u) => NatToString(u)
    case Float(f) => f
    case Str(s) => Quote(s)
    case IntSlice(xs) => ArrayLiteral(IntScalars(xs))
    case StrSlice(xs) => ArrayLiteral(StrScalars(xs))
    case Ptr(None) => NullLiteral
    case Ptr(Some(x)) => Encode(x)
    case NilRecordPtr => NullLiteral
    case Struct(_, p) => Quote(p)
    case StrMap(_, p) => Quote(p)
    case Other(p) => Quote(p)
  }

  // ---------------------------------------------------------------------
  // Properties of the encoding
  // ---------------------------------------------------------------------

  /** Follows non-nil pointers and Valuer results to the value that is
      finally encoded. */
  function Resolve(v: Value): (r: Value)
    ensures !(r.Valuer? && r.produced.Some?) && !(r.Ptr? && r.target.Some?)
  {
    match v
    case Valuer(Some(x)) => Resolve(x)
    case Ptr(Some(x)) => Resolve(x)
    case _ => v
  }

  /** The cases the source renders as NULL: nil, a nil pointer or nil
      *time.Time, a nil-receiver Valuer or Stringer. */
  predicate IsNil(v: Value)
  {
    v.Null? || v.NilRecordPtr? || v == Ptr(None) || v == TimePtr(None)
      || v == Valuer(None) || v == Stringer(None)
  }

  lemma {:induction false} EncodeResolve(v: Value)
    ensures Encode(v) == Encode(Resolve(v))
  {
    match v
    case Valuer(Some(x)) => EncodeResolve(x);
    case Ptr(Some(x)) => EncodeResolve(x);
    case _ =>
  }

  /** NULL is produced exactly for the nil cases, reached directly or
      through pointers and Valuers (a Valuer that produces nil included),
      and for a float whose rendering is the text NULL (which %.6f never
      yields). */
  lemma EncodeNull(v: Value)
    ensures Encode(v) == NullLiteral <==> IsNil(Resolve(v)) || Resolve(v) == Float(NullLiteral)
  {
    EncodeResolve(v);
    var x := Resolve(v);
    match x
    case Int(i) =>
      if i >= 0 { assert IsDigit(Encode(x)[0]); } else { assert Encode(x)[0] == '-'; }
    case Uint(u) => assert IsDigit(Encode(x)[0]);
    case Time(t) => assert Encode(x)[0] == '\'';
    case TimePtr(Some(t)) => assert Encode(x)[0] == '\'';
    case Stringer(Some(t)) => assert Encode(x)[0] == '\'';
    case Bytes(b) => assert Encode(x)[0] == '\'';
    case Str(s) => assert Encode(x)[0] == '\'';
    case IntSlice(_) => assert Encode(x)[0] == 'A';
    case StrSlice(_) => assert Encode(x)[0] == 'A';
    case Struct(_, _) => assert Encode(x)[0] == '\'';
    case StrMap(_, _) => assert Encode(x)[0] == '\'';
    case Other(_) => assert Encode(x)[0] == '\'';
    case _ =>
  }

  /** Text-like values (strings, Stringer output, printable byte slices and
      the fmt.Sprint fallback) become quoted literals that unquote back to
      their text. */
  lemma EncodeTextRoundTrip(v: Value, text: string)
    requires v == Str(text) || v == Stringer(Some(text)) || v == Other(text)
      || (v.Struct? && v.printed == text) || (v.StrMap? && v.printed == text)
      || (v.Bytes? && AllPrintable(v.bytes) && text == BytesText(v.bytes))
    ensures |Encode(v)| >= 2
    ensures Encode(v)[0] == '\'' && Encode(v)[|Encode(v)| - 1] == '\''
    ensures Unquote(Encode(v)) == text
  {
    QuoteRoundTrip(text);
  }

  lemma {:induction false} EscapeWithoutQuote(s: string)
    requires '\'' !in s
    ensures Escape(s) == s
  {
    if s != [] {
      EscapeWithoutQuote(s[1..]);
    }
  }

  /** toString agrees with the scalar string encoding unless the string
      already contains `\'`, in which case it is quoted but not escaped. */
  lemma ToStringOfString(s: string)
    ensures !ContainsEscapedQuote(s) ==> ToString(StrS(s)) == Encode(Str(s))
    ensures ContainsEscapedQuote(s) ==> ToString(StrS(s)) == "'" + s + "'"
  {
    if '\'' !in s {
      EscapeWithoutQuote(s);
    }
    if ContainsEscapedQuote(s) {
      var i :| 0 <= i < |s| - 1 && s[i] == '\\' && s[i + 1] == '\'';
      assert '\'' in s;
    }
  }

  /** Because of that shortcut, two different strings can give the same
      array element: `\'` and `'` both render as `'\''`. */
  lemma ToStringNotInjective()
    ensures ToString(StrS("\\'")) == ToString(StrS("'"))
  {
    var t := "\\'";
    assert t[0] == '\\' && t[1] == '\'';
    assert ContainsEscapedQuote(t);
    assert !ContainsEscapedQuote("'");
  }

  lemma EmptyArrayLiteral()
    ensures ArrayLiteral([]) == "ARRAY[]"
  {
  }

  lemma {:induction false} JoinCount(parts: seq<string>, sep: string, c: char)
    requires forall k :: 0 <= k < |parts| ==> c !in parts[k]
    ensures Count(Join(parts, sep), c) == if parts == [] then 0 else (|parts| - 1) * Count(sep, c)
  {
    if |parts| > 1 {
      JoinCount(parts[1..], sep, c);
      CountAppend(parts[0], sep, c);
      CountAppend(parts[0] + sep, Join(parts[1..], sep), c);
    }
  }

  lemma IntToStringHasNoComma(i: int)
    ensures ',' !in IntToString(i)
  {
  }

  /** An integer slice literal holds one decimal element per input: its
      commas are exactly the |xs| - 1 separators. */
  lemma IntArrayElementCount(xs: seq<int>)
    ensures Count(ArrayLiteral(IntScalars(xs)), ',') == if xs == [] then 0 else |xs| - 1
  {
    var parts := ElementTexts(IntScalars(xs));
    forall k | 0 <= k < |parts| ensures ',' !in parts[k] {
      IntToStringHasNoComma(xs[k]);
    }
    JoinCount(parts, ", ", ',');
    assert Count(", ", ',') == 1;
    CountAppend("ARRAY[", Join(parts, ", "), ',');
    CountAppend("ARRAY[" + Join(parts, ", "), "]", ',');
  }

  /** The integer slice {1, 2, 3} renders as `ARRAY[1, 2, 3]`. */
  lemma IntArrayExample()
    ensures Encode(IntSlice([1, 2, 3])) == "ARRAY[1, 2, 3]"
  {
    assert NatToString(1) == "1" && NatToString(2) == "2" && NatToString(3) == "3";
    var es := ElementTexts(IntScalars([1, 2, 3]));
    assert es == ["1", "2", "3"];
    assert Join(es, ", ") == "1, 2, 3";
  }

  /** The table `vars` that convertParams fills, keyed by position or name. */
  class LiteralTable {
    var vars: map<Key, string>

    constructor ()
      ensures vars == map[]
    {
      vars := map[];
    }

    /** convertParams(v, idx): stores the literal of v under idx. */
    method Convert(v: Value, idx: Key)
      modifies this
      ensures vars == old(vars)[idx := Encode(v)]
      decreases v
    {
      match v {
        case Null =>
          vars := vars[idx := NullLiteral];
        case Bool(b) =>
          vars := vars[idx := if b then "true" else "false"];
        case Time(t) =>
          vars := vars[idx := TimeLiteral(t)];
        case TimePtr(tp) =>
          if tp.Some? {
            vars := vars[idx := TimeLiteral(tp.value)];
          } else {
            vars := vars[idx := NullLiteral];
          }
        case Valuer(p) =>
          if p.Some? {
            Convert(p.value, idx);
          } else {
            vars := vars[idx := NullLiteral];
          }
        case Stringer(text) =>
          if text.Some? {
            vars := vars[idx := Quote(text.value)];
          } else {
            vars := vars[idx := NullLiteral];
          }
        case Bytes(b) =>
          var printable := IsPrintable(b);
          if printable {
            vars := vars[idx := Quote(BytesText(b))];
          } else {
            vars := vars[idx := BinaryLiteral];
          }
        case Int(i) =>
          vars := vars[idx := IntToString(i)];
        case Uint(u) =>
          vars := vars[idx := NatToString(u)];
        case Float(f) =>
          vars := vars[idx := f];
        case Str(s) =>
          vars := vars[idx := Quote(s)];
        case StrSlice(xs) =>
          var a := SliceToArray(StrScalars(xs));
          vars := vars[idx := a];
        case IntSlice(xs) =>
          var a := SliceToArray(IntScalars(xs));
          vars := vars[idx := a];
        case Ptr(target) =>
          if target.None? {
            vars := vars[idx := NullLiteral];
          } else {
            Convert(target.value, idx);
          }
        case NilRecordPtr =>
          vars := vars[idx := NullLiteral];
        case Struct(_, p) =>
          vars := vars[idx := Quote(p)];
        case StrMap(_, p) =>
          vars := vars[idx := Quote(p)];
        case Other(p) =>
          vars := vars[idx := Quote(p)];
      }
    }
  }
}
