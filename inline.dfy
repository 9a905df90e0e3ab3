/** Inline: renders a query with its arguments substituted as SQL literals.
    The argument list is read as a struct, a string-keyed map or a list of
    positional values; each value is encoded into the literal table; the
    detected placeholder style then decides how the query is rewritten. */
module Inline {
  import opened Wrappers
  import opened Text
  import opened SeqFacts
  import opened Encoder
  import opened Placeholders

  const UndefinedPrefix := "placeholder is undefined: "

  /** How the arguments are read. */
  datatype Shape = Record(fields: seq<Field>) | Mapping(entries: map<string, Value>) | List(values: seq<Value>)

  /** A single nil argument, or a single nil pointer to a struct or map,
      makes the source panic while it inspects the argument's type; that
      inspection only happens once a placeholder style has been detected. */
  predicate SingleArgSupported(v: Value)
  {
    !v.Null? && !v.NilRecordPtr?
  }

  /** One argument that is a struct (time.Time, Valuers and Stringers are
      separate cases of Value and so are not) or a map[string]any, possibly
      behind one pointer, is expanded; anything else is a positional list. */
  function Classify(avars: seq<Value>): (r: Shape)
    ensures |avars| != 1 ==> r == List(avars)
    ensures r.List? ==> r.values == avars
    ensures r.Record? <==> |avars| == 1 && (avars[0].Struct? || (avars[0].Ptr? && avars[0].target.Some? && avars[0].target.value.Struct?))
    ensures r.Record? ==> r.fields == if avars[0].Struct? then avars[0].fields else avars[0].target.value.fields
    ensures r.Mapping? <==> |avars| == 1 && (avars[0].StrMap? || (avars[0].Ptr? && avars[0].target.Some? && avars[0].target.value.StrMap?))
    ensures r.Mapping? ==> r.entries == if avars[0].StrMap? then avars[0].entries else avars[0].target.value.entries
  {
    if |avars| == 1 then
      var a := avars[0];
      var t := if a.Ptr? && a.target.Some? then a.target.value else a;
      if t.Struct? then Record(t.fields)
      else if t.StrMap? then Mapping(t.entries)
      else List(avars)
    else List(avars)
  }

  /** The key of a struct field: its non-empty `db` tag, else its name in
      lower case. */
  function FieldKey(f: Field): string
  {
    if |f.dbTag| > 0 then f.dbTag else ToLower(f.name)
  }

  /** The value a field contributes: pointers are dereferenced once, and a
      nil pointer contributes nil. */
  function FieldValue(f: Field): Value
  {
    match f.content
    case Direct(v) => v
    case Pointer(None) => Null
    case Pointer(Some(x)) => x
  }

  function Exported(fs: seq<Field>): (r: seq<Field>)
    ensures |r| <= |fs|
    ensures forall j :: 0 <= j < |r| ==> r[j].exported && r[j] in fs
    ensures forall i :: 0 <= i < |fs| && fs[i].exported ==> fs[i] in r
  {
    if fs == [] then []
    else Exported(fs[..|fs| - 1]) + (if fs[|fs| - 1].exported then [fs[|fs| - 1]] else [])
  }

  /** Filtering keeps the order of the fields: it distributes over
      concatenation, and a single field is kept exactly when it is exported. */
  lemma {:induction false} ExportedAppend(a: seq<Field>, b: seq<Field>)
    ensures Exported(a + b) == Exported(a) + Exported(b)
    ensures |b| == 1 ==> Exported(b) == if b[0].exported then b else []
    decreases |b|
  {
    if b == [] {
      assert a + b == a;
    } else {
      var b', f := b[..|b| - 1], b[|b| - 1];
      var ab := a + b;
      assert ab[..|ab| - 1] == a + b' && ab[|ab| - 1] == f;
      ExportedAppend(a, b');
      var t := if f.exported then [f] else [];
      assert Exported(ab) == Exported(a + b') + t;
      assert Exported(b) == Exported(b') + t;
      if |b| == 1 { assert b' == []; }
      Assoc(Exported(a), Exported(b'), t);
    }
  }

  /** The literal table of a struct argument and the final value of the
      field counter. */
  function FieldLiterals(fs: seq<Field>, named: bool): (map<Key, string>, nat)
  {
    if fs == [] then (map[], 0)
    else
      var (m, num) := FieldLiterals(fs[..|fs| - 1], named);
      var f := fs[|fs| - 1];
      if !f.exported then (m, num)
      else if named then (m[NameKey(FieldKey(f)) := Encode(FieldValue(f))], num)
      else (m[IntKey(num) := Encode(FieldValue(f))], num + 1)
  }

  function MapLiterals(entries: map<string, Value>): map<Key, string>
  {
    map k | k in entries :: NameKey(k) := Encode(entries[k])
  }

  function ListLiterals(vs: seq<Value>): map<Key, string>
  {
    if vs == [] then map[]
    else ListLiterals(vs[..|vs| - 1])[IntKey(|vs| - 1) := Encode(vs[|vs| - 1])]
  }

  /** The literal table after the arguments have been encoded. */
  function Literals(style: Style, avars: seq<Value>): map<Key, string>
  {
    match Classify(avars)
    case Record(fs) => FieldLiterals(fs, style == Named).0
    case Mapping(m) => MapLiterals(m)
    case List(vs) => ListLiterals(vs)
  }

  /** vars[idx] of a map[any]string: the empty string when the key is absent. */
  function PosLookup(vars: map<Key, string>, idx: int): string
  {
    if IntKey(idx) in vars then vars[IntKey(idx)] else ""
  }

  /** The `?` renderer, from the (k+1)-th placeholder on: while k < len(vars)
      a `?` becomes literal k; every other character is copied. */
  function PosRender(s: string, vars: map<Key, string>, k: int): string
  {
    if s == [] then ""
    else if s[0] == '?' && |vars| > k then PosLookup(vars, k) + PosRender(s[1..], vars, k + 1)
    else [s[0]] + PosRender(s[1..], vars, k)
  }

  function Render(style: Style, sql: string, vars: map<Key, string>): string
  {
    match style
    case Positional => PosRender(sql, vars, 0)
    case Numbered => Substituted(ScanNumbered(sql), vars)
    case Named => Substituted(ScanNamed(sql), vars)
  }

  /** What Inline returns. */
  function InlineSpec(sql: string, avars: seq<Value>): string
  {
    if |avars| == 0 then sql
    else match Detect(sql)
      case None => UndefinedPrefix + sql
      case Some(style) => Render(style, sql, Literals(style, avars))
  }

  // ---------------------------------------------------------------------
  // Style selection
  // ---------------------------------------------------------------------

  /** With no arguments the query is returned as it is, placeholders or not. */
  lemma InlineNoArgs(sql: string)
    ensures InlineSpec(sql, []) == sql
  {
  }

  /** Without any placeholder pattern the result is the diagnostic text. */
  lemma InlineUndefined(sql: string, avars: seq<Value>)
    requires |avars| > 0 && Detect(sql).None?
    ensures InlineSpec(sql, avars) == UndefinedPrefix + sql
    ensures '?' !in sql && !HasNumbered(sql) && !HasNamed(sql)
  {
  }

  // ---------------------------------------------------------------------
  // The `?` renderer
  // ---------------------------------------------------------------------

  /** Once the counter has reached len(vars), the rest is copied verbatim,
      `?` included. */
  lemma {:induction false} PosRenderExhausted(s: string, vars: map<Key, string>, k: int)
    requires k >= |vars|
    ensures PosRender(s, vars, k) == s
  {
    if s != [] {
      PosRenderExhausted(s[1..], vars, k);
    }
  }

  /** A text without `?` is copied verbatim. */
  lemma {:induction false} PosRenderNoPlaceholder(s: string, vars: map<Key, string>, k: int)
    requires '?' !in s
    ensures PosRender(s, vars, k) == s
  {
    if s != [] {
      assert s == [s[0]] + s[1..];
      PosRenderNoPlaceholder(s[1..], vars, k);
    }
  }

  lemma PosRenderConsHole(s: string, vars: map<Key, string>, k: int)
    requires s != [] && s[0] == '?' && |vars| > k
    ensures PosRender(s, vars, k) == PosLookup(vars, k) + PosRender(s[1..], vars, k + 1)
  {
  }

  lemma PosRenderConsChar(s: string, vars: map<Key, string>, k: int)
    requires s != [] && !(s[0] == '?' && |vars| > k)
    ensures PosRender(s, vars, k) == [s[0]] + PosRender(s[1..], vars, k)
  {
  }

  /** The placeholder counter after reading s from k on. */
  function Advance(s: string, k: int): int
  {
    if s == [] then k else Advance(s[1..], if s[0] == '?' then k + 1 else k)
  }

  lemma {:induction false} AdvanceCount(s: string, k: int)
    ensures Advance(s, k) == k + Count(s, '?')
  {
    if s != [] {
      AdvanceCount(s[1..], if s[0] == '?' then k + 1 else k);
    }
  }

  lemma {:induction false} PosRenderSplit(a: string, b: string, vars: map<Key, string>, k: int)
    requires k + Count(a, '?') <= |vars|
    ensures PosRender(a + b, vars, k) == PosRender(a, vars, k) + PosRender(b, vars, Advance(a, k))
  {
    if a == [] {
      assert a + b == b;
    } else {
      ConsAppend(a, b);
      var t := a[1..];
      if a[0] == '?' {
        PosRenderSplit(t, b, vars, k + 1);
        PosRenderConsHole(a + b, vars, k);
        PosRenderConsHole(a, vars, k);
        Assoc(PosLookup(vars, k), PosRender(t, vars, k + 1), PosRender(b, vars, Advance(t, k + 1)));
      } else {
        PosRenderSplit(t, b, vars, k);
        PosRenderConsChar(a + b, vars, k);
        PosRenderConsChar(a, vars, k);
        Assoc([a[0]], PosRender(t, vars, k), PosRender(b, vars, Advance(t, k)));
      }
    }
  }

  /** The renderer works left to right: the `?` of b are numbered after
      those of a. */
  lemma PosRenderAppend(a: string, b: string, vars: map<Key, string>, k: int)
    requires k + Count(a, '?') <= |vars|
    ensures PosRender(a + b, vars, k) == PosRender(a, vars, k) + PosRender(b, vars, k + Count(a, '?'))
  {
    PosRenderSplit(a, b, vars, k);
    AdvanceCount(a, k);
  }

  /** The k-th `?` (0-based) is replaced by vars[k] while k < len(vars). */
  lemma PosRenderAt(a: string, b: string, vars: map<Key, string>)
    requires Count(a, '?') < |vars|
    ensures PosRender(a + "?" + b, vars, 0)
      == PosRender(a, vars, 0) + PosLookup(vars, Count(a, '?')) + PosRender(b, vars, Count(a, '?') + 1)
  {
    Assoc(a, "?", b);
    PosRenderAppend(a, "?" + b, vars, 0);
    ConsAppend("?", b);
    var c := 0 + Count(a, '?');
    assert c == Count(a, '?');
    PosRenderConsHole("?" + b, vars, c);
    var r, l, t := PosRender(a, vars, 0), PosLookup(vars, c), PosRender(b, vars, c + 1);
    Assoc(r, l, t);
  }

  // ---------------------------------------------------------------------
  // Literal tables
  // ---------------------------------------------------------------------

  /** A list of arguments gives one literal per position, and nothing else. */
  lemma {:induction false} ListLiteralsShape(vs: seq<Value>)
    ensures forall key :: key in ListLiterals(vs) <==> key.IntKey? && 0 <= key.i < |vs|
    ensures forall j :: 0 <= j < |vs| ==> ListLiterals(vs)[IntKey(j)] == Encode(vs[j])
    ensures |ListLiterals(vs)| == |vs|
  {
    if vs != [] {
      var init := vs[..|vs| - 1];
      ListLiteralsShape(init);
      assert IntKey(|vs| - 1) !in ListLiterals(init);
      forall j | 0 <= j < |vs| - 1 ensures vs[j] == init[j] { }
    }
  }

  /** With positional placeholders and a list of arguments, the k-th `?`
      receives the literal of the k-th argument. */
  lemma InlinePositionalList(a: string, b: string, avars: seq<Value>)
    requires |avars| >= 2 && Count(a, '?') < |avars|
    ensures InlineSpec(a + "?" + b, avars)
      == PosRender(a, ListLiterals(avars), 0) + Encode(avars[Count(a, '?')])
         + PosRender(b, ListLiterals(avars), Count(a, '?') + 1)
  {
    var sql := a + "?" + b;
    assert sql[|a|] == '?';
    ListLiteralsShape(avars);
    PosRenderAt(a, b, ListLiterals(avars));
  }

  /** With numbered placeholders and a list, `$n` receives argument n-1 when
      there is one and is otherwise left as the token `$n$`; every
      occurrence of the same number receives the same literal. */
  lemma NumberedPieceWithList(vs: seq<Value>, j: nat)
    ensures PieceOut(Num(NatToString(j + 1)), ListLiterals(vs))
      == if j < |vs| then Encode(vs[j]) else "$" + NatToString(j + 1) + "$"
  {
    NumberedKeyOf(j, NatToString(j + 1));
    ListLiteralsShape(vs);
  }

  /** The struct loop with a counter: only exported fields are visited,
      the counter ends at their number, and position j holds the literal
      of the j-th exported field. */
  lemma {:induction false} FieldLiteralsNumbered(fs: seq<Field>)
    ensures FieldLiterals(fs, false).1 == |Exported(fs)|
    ensures forall key :: key in FieldLiterals(fs, false).0 <==> key.IntKey? && 0 <= key.i < |Exported(fs)|
    ensures forall j :: 0 <= j < |Exported(fs)| ==>
      FieldLiterals(fs, false).0[IntKey(j)] == Encode(FieldValue(Exported(fs)[j]))
  {
    if fs != [] {
      var init := fs[..|fs| - 1];
      FieldLiteralsNumbered(init);
      var e := Exported(init);
      assert forall j :: 0 <= j < |e| ==> Exported(fs)[j] == e[j];
    }
  }

  /** e[j] is the last field of e with its key. */
  predicate LastOfKey(e: seq<Field>, j: int)
  {
    0 <= j < |e| && forall j' :: j < j' < |e| ==> FieldKey(e[j']) != FieldKey(e[j])
  }

  /** The struct loop with names: the table holds exactly the keys of the
      exported fields. */
  lemma {:induction false} FieldLiteralsNamedKeys(fs: seq<Field>)
    ensures forall key :: key in FieldLiterals(fs, true).0 <==>
      key.NameKey? && exists j :: 0 <= j < |Exported(fs)| && FieldKey(Exported(fs)[j]) == key.name
  {
    if fs != [] {
      var init := fs[..|fs| - 1];
      var f := fs[|fs| - 1];
      FieldLiteralsNamedKeys(init);
      var e := Exported(init);
      var e' := Exported(fs);
      assert e' == e + (if f.exported then [f] else []);
      var m := FieldLiterals(fs, true).0;
      var m0 := FieldLiterals(init, true).0;
      assert m == if f.exported then m0[NameKey(FieldKey(f)) := Encode(FieldValue(f))] else m0;
      forall key: Key
        ensures key in m <==> key.NameKey? && exists j :: 0 <= j < |e'| && FieldKey(e'[j]) == key.name
      {
        if key in m0 {
          var j :| 0 <= j < |e| && FieldKey(e[j]) == key.name;
          assert e'[j] == e[j];
        }
        if key.NameKey? && exists j :: 0 <= j < |e'| && FieldKey(e'[j]) == key.name {
          var j :| 0 <= j < |e'| && FieldKey(e'[j]) == key.name;
          assert key == NameKey(key.name);
          if j < |e| {
            assert e'[j] == e[j] && FieldKey(e[j]) == key.name;
            assert key in m0;
          } else {
            assert e'[j] == f && f.exported;
          }
        }
        if f.exported && key == NameKey(FieldKey(f)) {
          assert e'[|e|] == f;
        }
      }
      assert forall key :: key in m <==> key.NameKey? && exists j :: 0 <= j < |e'| && FieldKey(e'[j]) == key.name;
    } else {
      assert FieldLiterals(fs, true).0 == map[] && Exported(fs) == [];
    }
  }

  /** The struct loop with names: a key holds the literal of the last
      exported field that has it. */
  lemma {:induction false} FieldLiteralsNamedValues(fs: seq<Field>, j: int)
    requires LastOfKey(Exported(fs), j)
    ensures NameKey(FieldKey(Exported(fs)[j])) in FieldLiterals(fs, true).0
    ensures FieldLiterals(fs, true).0[NameKey(FieldKey(Exported(fs)[j]))] == Encode(FieldValue(Exported(fs)[j]))
  {
    var init := fs[..|fs| - 1];
    var f := fs[|fs| - 1];
    var e := Exported(init);
    var e' := Exported(fs);
    assert e' == e + (if f.exported then [f] else []);
    if !(f.exported && j == |e|) {
      assert e'[j] == e[j];
      assert LastOfKey(e, j) by {
        forall j' | j < j' < |e| ensures FieldKey(e[j']) != FieldKey(e[j]) {
          assert e'[j'] == e[j'];
        }
      }
      FieldLiteralsNamedValues(init, j);
      if f.exported {
        assert e'[|e|] == f;
      }
    }
  }

  /** A map argument gives one literal per entry, under its key. */
  lemma MapLiteralsShape(entries: map<string, Value>)
    ensures forall key :: key in MapLiterals(entries) <==> key.NameKey? && key.name in entries
    ensures forall k :: k in entries ==> MapLiterals(entries)[NameKey(k)] == Encode(entries[k])
  {
  }

  // ---------------------------------------------------------------------
  // The imperative core
  // ---------------------------------------------------------------------

  /** The struct loop: visits exported fields only; named keys are field
      keys, positional keys come from a counter that advances per visited
      field. */
  method ConvertStruct(t: LiteralTable, fields: seq<Field>, named: bool)
    requires t.vars == map[]
    modifies t
    ensures t.vars == FieldLiterals(fields, named).0
  {
    var num := 0;
    for i := 0 to |fields|
      invariant (t.vars, num) == FieldLiterals(fields[..i], named)
    {
      assert fields[..i + 1][..i] == fields[..i];
      var f := fields[i];
      if f.exported {
        var v: Value;
        match f.content {
          case Pointer(p) =>
            if p.None? { v := Null; } else { v := p.value; }
          case Direct(x) =>
            v := x;
        }
        var key := if |f.dbTag| > 0 then f.dbTag else ToLower(f.name);
        if named {
          t.Convert(v, NameKey(key));
        } else {
          t.Convert(v, IntKey(num));
          num := num + 1;
        }
      }
    }
    assert fields[..|fields|] == fields;
  }

  /** The map loop: every entry is encoded under its own key (the order of
      Go's map iteration does not matter, the keys being distinct). */
  method ConvertMap(t: LiteralTable, entries: map<string, Value>)
    requires t.vars == map[]
    modifies t
    ensures t.vars == MapLiterals(entries)
  {
    var rest := entries.Keys;
    while rest != {}
      invariant rest <= entries.Keys
      invariant forall key :: key in t.vars <==> key.NameKey? && key.name in entries && key.name !in rest
      invariant forall k :: k in entries && k !in rest ==> t.vars[NameKey(k)] == Encode(entries[k])
      decreases rest
    {
      var key :| key in rest;
      t.Convert(entries[key], NameKey(key));
      rest := rest - {key};
    }
  }

  /** The list loop: argument i is encoded under position i. */
  method ConvertList(t: LiteralTable, vs: seq<Value>)
    requires t.vars == map[]
    modifies t
    ensures t.vars == ListLiterals(vs)
  {
    for i := 0 to |vs|
      invariant t.vars == ListLiterals(vs[..i])
    {
      assert vs[..i + 1][..i] == vs[..i];
      t.Convert(vs[i], IntKey(i));
    }
    assert vs[..|vs|] == vs;
  }

  /** The `?` renderer: a byte loop with a placeholder counter. */
  method RenderPositional(sql: string, vars: map<Key, string>) returns (r: string)
    ensures r == PosRender(sql, vars, 0)
  {
    var idx := 0;
    r := "";
    for i := 0 to |sql|
      invariant r + PosRender(sql[i..], vars, idx) == PosRender(sql, vars, 0)
    {
      assert sql[i..][1..] == sql[i + 1..];
      var v := sql[i];
      if v == '?' && |vars| > idx {
        r := r + PosLookup(vars, idx);
        idx := idx + 1;
      } else {
        r := r + [v];
      }
    }
  }

  method Inline(sql: string, avars: seq<Value>) returns (r: string)
    requires |avars| == 1 && Detect(sql).Some? ==> SingleArgSupported(avars[0])
    ensures r == InlineSpec(sql, avars)
  {
    if |avars| == 0 {
      return sql;
    }
    var placeholder := Detect(sql);
    if placeholder.None? {
      return UndefinedPrefix + sql;
    }
    var style := placeholder.value;
    var t := new LiteralTable();
    match Classify(avars) {
      case Record(fields) => ConvertStruct(t, fields, style == Named);
      case Mapping(entries) => ConvertMap(t, entries);
      case List(vs) => ConvertList(t, vs);
    }
    match style {
      case Numbered => r := Substituted(ScanNumbered(sql), t.vars);
      case Named => r := Substituted(ScanNamed(sql), t.vars);
      case Positional => r := RenderPositional(sql, t.vars);
    }
  }
}
