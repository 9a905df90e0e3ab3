/** In: expands slice arguments of a `?` query for driver binding, and
    Rebind: renumbers `?` into `$1, $2, ...`. */
module ExpandIn {
  import opened Wrappers
  import opened Text
  import Encoder
  import opened SeqFacts

  /** An argument as In sees it. Scalars are opaque values of type V. */
  datatype Arg<V> =
    | Nil
    | Scalar(v: V)
    | Bytes(b: seq<Encoder.byte>)                         // []byte, a driver value, never expanded
    | Slice(elems: seq<Arg<V>>)                   // any other slice
    | Valuer(produced: Result<Arg<V>, string>)    // driver.Valuer and what Value() returns

  datatype InError = ValuerError(message: string) | EmptySlice | TooManyBindVars | TooFewBindVars

  function Message(e: InError): string
  {
    match e
    case ValuerError(m) => m
    case EmptySlice => "empty slice passed to 'in' query"
    case TooManyBindVars => "number of bindVars exceeds arguments"
    case TooFewBindVars => "number of bindVars less than number arguments"
  }

  /** What the first loop records per argument: a value to pass through, or
      the non-empty element list of a slice. */
  datatype Meta<V> = Single(a: Arg<V>) | Spread(elems: seq<Arg<V>>)

  /** asSliceForIn: nil and []byte are not slices. */
  function AsSliceForIn<V>(a: Arg<V>): (r: Option<seq<Arg<V>>>)
    ensures a.Nil? || a.Bytes? || a.Scalar? ==> r.None?
  {
    if a.Slice? then Some(a.elems) else None
  }

  /** A driver.Valuer is replaced by what its Value method returns. */
  function Unwrap<V>(a: Arg<V>): Result<Arg<V>, string>
  {
    if a.Valuer? then a.produced else Success(a)
  }

  /** One argument of the first loop: a Valuer's error is returned as it is,
      and a slice must not be empty. */
  function PrepareArg<V>(a: Arg<V>): Result<Meta<V>, InError>
  {
    match Unwrap(a)
    case Failure(e) => Failure(ValuerError(e))
    case Success(x) =>
      match AsSliceForIn(x)
      case Some(es) => if |es| == 0 then Failure(EmptySlice) else Success(Spread(es))
      case None => Success(Single(x))
  }

  /** An argument the first loop lets through. */
  predicate Acceptable<V>(a: Arg<V>)
  {
    Unwrap(a).Success? && (Unwrap(a).value.Slice? ==> |Unwrap(a).value.elems| > 0)
  }

  /** The output arguments an input argument stands for: the elements of a
      slice, or the (unwrapped) value itself. */
  function ArgValues<V>(a: Arg<V>): seq<Arg<V>>
  {
    match Unwrap(a)
    case Failure(_) => []
    case Success(Slice(es)) => es
    case Success(x) => [x]
  }

  function FlatValues<V>(args: seq<Arg<V>>): seq<Arg<V>>
  {
    if args == [] then [] else ArgValues(args[0]) + FlatValues(args[1..])
  }

  /** The first loop over all arguments; it stops at the first failure. */
  function Prepare<V>(args: seq<Arg<V>>): Result<seq<Meta<V>>, InError>
  {
    if args == [] then Success([])
    else match Prepare(args[..|args| - 1])
      case Failure(e) => Failure(e)
      case Success(ms) =>
        match PrepareArg(args[|args| - 1])
        case Failure(e) => Failure(e)
        case Success(m) => Success(ms + [m])
  }

  predicate AnySpread<V>(ms: seq<Meta<V>>)
  {
    exists k :: 0 <= k < |ms| && ms[k].Spread?
  }

  function Width<V>(m: Meta<V>): nat
  {
    match m
    case Single(_) => 1
    case Spread(es) => |es|
  }

  /** The placeholders a `?` is widened to: `?` then `, ?` per extra element. */
  function Widen<V>(m: Meta<V>): string
  {
    "?" + Repeat(", ?", if Width(m) > 0 then Width(m) - 1 else 0)
  }

  /** The output arguments one input argument contributes. */
  function Contribution<V>(m: Meta<V>): seq<Arg<V>>
  {
    match m
    case Single(a) => [a]
    case Spread(es) => es
  }

  function Flatten<V>(ms: seq<Meta<V>>): seq<Arg<V>>
  {
    if ms == [] then [] else Contribution(ms[0]) + Flatten(ms[1..])
  }

  function TotalWidth<V>(ms: seq<Meta<V>>): nat
  {
    if ms == [] then 0 else Width(ms[0]) + TotalWidth(ms[1..])
  }

  /** Puts text and arguments in front of a successful result. */
  function Prepend<V>(p: string, a: seq<Arg<V>>, r: Result<(string, seq<Arg<V>>), InError>): Result<(string, seq<Arg<V>>), InError>
  {
    match r
    case Failure(e) => Failure(e)
    case Success((q, as')) => Success((p + q, a + as'))
  }

  /** The second loop, read character by character: each `?` takes the
      next recorded argument. */
  function ExpandSpec<V>(q: string, ms: seq<Meta<V>>): Result<(string, seq<Arg<V>>), InError>
    decreases |q|
  {
    if q == [] then (if ms == [] then Success(("", [])) else Failure(TooFewBindVars))
    else if q[0] == '?' then
      (if ms == [] then Failure(TooManyBindVars)
       else Prepend(Widen(ms[0]), Contribution(ms[0]), ExpandSpec(q[1..], ms[1..])))
    else Prepend([q[0]], [], ExpandSpec(q[1..], ms))
  }

  /** What In returns. */
  function InSpec<V>(query: string, args: seq<Arg<V>>): Result<(string, seq<Arg<V>>), InError>
  {
    match Prepare(args)
    case Failure(e) => Failure(e)
    case Success(ms) => if !AnySpread(ms) then Success((query, args)) else ExpandSpec(query, ms)
  }

  /** strings.IndexByte(s, '?'). */
  function IndexOfQ(s: string): (r: int)
    ensures -1 <= r < |s|
    ensures r == -1 <==> '?' !in s
    ensures r >= 0 ==> s[r] == '?' && '?' !in s[..r]
  {
    if s == [] then -1
    else if s[0] == '?' then 0
    else
      var r := IndexOfQ(s[1..]);
      assert s == [s[0]] + s[1..];
      if r == -1 then -1
      else
        assert s[..r + 1] == [s[0]] + s[1..][..r];
        r + 1
  }

  // ---------------------------------------------------------------------
  // Helper facts for the loops
  // ---------------------------------------------------------------------

  lemma PrependAssoc<V>(p: string, a: seq<Arg<V>>, p2: string, a2: seq<Arg<V>>, r: Result<(string, seq<Arg<V>>), InError>)
    ensures Prepend(p, a, Prepend(p2, a2, r)) == Prepend(p + p2, a + a2, r)
  {
    if r.Success? {
      var (q, as') := r.value;
      assert p + (p2 + q) == (p + p2) + q;
      assert a + (a2 + as') == (a + a2) + as';
    }
  }

  lemma {:induction false} ExpandPlainPrefix<V>(a: string, b: string, ms: seq<Meta<V>>)
    requires '?' !in a
    ensures ExpandSpec(a + b, ms) == Prepend(a, [], ExpandSpec(b, ms))
  {
    if a == [] {
      assert a + b == b;
      PrependEmpty(ExpandSpec(b, ms));
    } else {
      assert a == [a[0]] + a[1..];
      assert a[0] != '?';
      assert (a + b)[0] == a[0] && (a + b)[1..] == a[1..] + b;
      assert ExpandSpec(a + b, ms) == Prepend([a[0]], [], ExpandSpec(a[1..] + b, ms));
      ExpandPlainPrefix(a[1..], b, ms);
      var e: seq<Arg<V>> := [];
      PrependAssoc([a[0]], e, a[1..], e, ExpandSpec(b, ms));
      assert e + e == e;
    }
  }

  lemma ExpandSkip<V>(t: string, ms: seq<Meta<V>>, i: nat)
    requires i <= |t| && '?' !in t[..i]
    ensures ExpandSpec(t, ms) == Prepend(t[..i], [], ExpandSpec(t[i..], ms))
  {
    assert t == t[..i] + t[i..];
    ExpandPlainPrefix(t[..i], t[i..], ms);
  }

  lemma {:induction false} ExpandNoPlaceholder<V>(t: string, ms: seq<Meta<V>>)
    requires '?' !in t
    ensures ExpandSpec(t, ms) == if ms == [] then Success((t, [])) else Failure(TooFewBindVars)
  {
    assert t + "" == t;
    ExpandPlainPrefix(t, "", ms);
    if ms == [] {
      var e: seq<Arg<V>> := [];
      assert ExpandSpec("", ms) == Success(("", e));
      assert e + e == e;
    }
  }

  lemma PrependEmpty<V>(r: Result<(string, seq<Arg<V>>), InError>)
    ensures Prepend("", [], r) == r
  {
    if r.Success? {
      assert "" + r.value.0 == r.value.0 && [] + r.value.1 == r.value.1;
    }
  }

  lemma AnySpreadSnoc<V>(ms: seq<Meta<V>>, m: Meta<V>)
    ensures AnySpread(ms + [m]) <==> AnySpread(ms) || m.Spread?
  {
    if m.Spread? {
      assert (ms + [m])[|ms|].Spread?;
    }
    if AnySpread(ms) {
      var k :| 0 <= k < |ms| && ms[k].Spread?;
      assert (ms + [m])[k].Spread?;
    }
    if AnySpread(ms + [m]) {
      var k :| 0 <= k < |ms + [m]| && (ms + [m])[k].Spread?;
      if k < |ms| {
        assert ms[k].Spread?;
      }
    }
  }

  lemma RepeatSnoc(s: string, n: nat)
    ensures Repeat(s, n + 1) == Repeat(s, n) + s
  {
    if n > 0 {
      RepeatSnoc(s, n - 1);
    }
  }

  // ---------------------------------------------------------------------
  // The imperative core
  // ---------------------------------------------------------------------

  /** appendReflectSlice: appends every element, in order. */
  method AppendReflectSlice<V>(args: seq<Arg<V>>, elems: seq<Arg<V>>) returns (r: seq<Arg<V>>)
    ensures r == args + elems
  {
    r := args;
    for si := 0 to |elems|
      invariant r == args + elems[..si]
    {
      assert elems[..si + 1] == elems[..si] + [elems[si]];
      r := r + [elems[si]];
    }
    assert elems[..|elems|] == elems;
  }

  /** One turn of In's first loop. */
  lemma PrepareStep<V>(args: seq<Arg<V>>, i: nat, meta: seq<Meta<V>>)
    requires i < |args| && Prepare(args[..i]) == Success(meta)
    ensures PrepareArg(args[i]).Success? ==> Prepare(args[..i + 1]) == Success(meta + [PrepareArg(args[i]).value])
    ensures PrepareArg(args[i]).Failure? ==> Prepare(args) == Failure(PrepareArg(args[i]).error)
  {
    assert args[..i + 1][..i] == args[..i];
    if PrepareArg(args[i]).Failure? {
      PrepareFailsAt(args, i);
    }
  }

  lemma {:induction false} PrepareFailsAt<V>(args: seq<Arg<V>>, i: nat)
    requires i < |args| && Prepare(args[..i]).Success? && PrepareArg(args[i]).Failure?
    ensures Prepare(args) == Failure(PrepareArg(args[i]).error)
    decreases |args|
  {
    var init := args[..|args| - 1];
    if i < |args| - 1 {
      assert init[..i] == args[..i] && init[i] == args[i];
      PrepareFailsAt(init, i);
    } else {
      assert init == args[..i];
    }
  }

  /** The invariant of In's second loop: what is already written, followed
      by the expansion of the rest of the query with the arguments not yet
      consumed, is the expansion of the whole query. */
  ghost predicate ExpandInvariant<V>(query: string, meta: seq<Meta<V>>, buf: string, q: string, offset: nat, newArgs: seq<Arg<V>>, arg: nat)
  {
    offset <= |q| && arg <= |meta| &&
    Prepend(buf + q[..offset], newArgs, ExpandSpec(q[offset..], meta[arg..])) == ExpandSpec(query, meta)
  }

  /** The next `?` of the rest, split off with the text before it. */
  lemma ExpandAtPlaceholder<V>(query: string, meta: seq<Meta<V>>, buf: string, q: string, offset: nat, newArgs: seq<Arg<V>>, arg: nat, i: nat)
    requires ExpandInvariant(query, meta, buf, q, offset, newArgs, arg)
    requires i == IndexOfQ(q[offset..])
    ensures ExpandSpec(query, meta) ==
      Prepend(buf + q[..offset + i], newArgs, ExpandSpec(q[offset + i..], meta[arg..]))
  {
    var rest, ms := q[offset..], meta[arg..];
    var e: seq<Arg<V>> := [];
    var pre := buf + q[..offset];
    var tail := ExpandSpec(q[offset + i..], ms);
    ExpandSkip(rest, ms, i);
    SplitAt(q, offset, i);
    PrependAssoc(pre, newArgs, rest[..i], e, tail);
    var pre' := pre + rest[..i];
    assert pre' == buf + q[..offset + i];
    assert newArgs + e == newArgs;
    calc {
      ExpandSpec(query, meta);
      Prepend(pre, newArgs, ExpandSpec(rest, ms));
      Prepend(pre, newArgs, Prepend(rest[..i], e, tail));
      Prepend(pre', newArgs + e, tail);
      Prepend(buf + q[..offset + i], newArgs, tail);
    }
  }

  lemma ExpandTooMany<V>(query: string, meta: seq<Meta<V>>, buf: string, q: string, offset: nat, newArgs: seq<Arg<V>>, i: nat)
    requires ExpandInvariant(query, meta, buf, q, offset, newArgs, |meta|)
    requires i == IndexOfQ(q[offset..])
    ensures ExpandSpec(query, meta) == Failure(TooManyBindVars)
  {
    ExpandAtPlaceholder(query, meta, buf, q, offset, newArgs, |meta|, i);
    assert meta[|meta|..] == [];
  }

  lemma ExpandConsume<V>(query: string, meta: seq<Meta<V>>, buf: string, q: string, offset: nat, newArgs: seq<Arg<V>>, arg: nat, i: nat)
    requires ExpandInvariant(query, meta, buf, q, offset, newArgs, arg)
    requires i == IndexOfQ(q[offset..]) && arg < |meta|
    ensures ExpandSpec(query, meta) ==
      Prepend(buf + q[..offset + i] + Widen(meta[arg]), newArgs + Contribution(meta[arg]),
        ExpandSpec(q[offset + i + 1..], meta[arg + 1..]))
  {
    ExpandAtPlaceholder(query, meta, buf, q, offset, newArgs, arg, i);
    SplitAt(q, offset, i);
    var t := q[offset + i..];
    SplitFront(q, offset + i);
    SplitFront(meta, arg);
    var m := meta[arg];
    var tail := ExpandSpec(q[offset + i + 1..], meta[arg + 1..]);
    assert t[0] == '?';
    assert ExpandSpec(t, meta[arg..]) == Prepend(Widen(m), Contribution(m), tail);
    PrependAssoc(buf + q[..offset + i], newArgs, Widen(m), Contribution(m), tail);
  }

  lemma ExpandSingleStep<V>(query: string, meta: seq<Meta<V>>, buf: string, q: string, offset: nat, newArgs: seq<Arg<V>>, arg: nat, i: nat)
    requires ExpandInvariant(query, meta, buf, q, offset, newArgs, arg)
    requires i == IndexOfQ(q[offset..]) && arg < |meta| && meta[arg].Single?
    ensures ExpandInvariant(query, meta, buf, q, offset + i + 1, newArgs + [meta[arg].a], arg + 1)
  {
    ExpandConsume(query, meta, buf, q, offset, newArgs, arg, i);
    SplitAt(q, offset, i);
    AppendPlaceholder(q, offset + i);
    assert Widen(meta[arg]) == "?";
    Assoc(buf, q[..offset + i], "?");
  }

  lemma ExpandSpreadStep<V>(query: string, meta: seq<Meta<V>>, buf: string, q: string, offset: nat, newArgs: seq<Arg<V>>, arg: nat, i: nat,
                            buf': string, q': string, newArgs': seq<Arg<V>>)
    requires ExpandInvariant(query, meta, buf, q, offset, newArgs, arg)
    requires i == IndexOfQ(q[offset..]) && arg < |meta| && meta[arg].Spread? && |meta[arg].elems| > 0
    requires buf' == buf + q[..offset + i + 1] + Repeat(", ?", |meta[arg].elems| - 1)
    requires q' == q[offset + i + 1..] && newArgs' == newArgs + meta[arg].elems
    ensures ExpandInvariant(query, meta, buf', q', 0, newArgs', arg + 1)
  {
    ExpandConsume(query, meta, buf, q, offset, newArgs, arg, i);
    SplitAt(q, offset, i);
    SplitFront(q, offset + i);
    AppendPlaceholder(q, offset + i);
    EmptyPrefix(q');
    var w := Repeat(", ?", |meta[arg].elems| - 1);
    assert Widen(meta[arg]) == "?" + w;
    Regroup(buf, q[..offset + i], "?", w);
    assert buf' + q'[..0] == buf';
  }

  /** The text up to a `?` followed by that `?`. */
  lemma AppendPlaceholder(q: string, j: nat)
    requires j < |q| && q[j] == '?'
    ensures q[..j] + "?" == q[..j + 1]
  {
    assert q[..j + 1] == q[..j] + [q[j]];
  }

  lemma ExpandExit<V>(query: string, meta: seq<Meta<V>>, buf: string, q: string, offset: nat, newArgs: seq<Arg<V>>, arg: nat)
    requires ExpandInvariant(query, meta, buf, q, offset, newArgs, arg)
    requires '?' !in q[offset..]
    ensures ExpandSpec(query, meta) == if arg == |meta| then Success((buf + q, newArgs)) else Failure(TooFewBindVars)
  {
    ExpandNoPlaceholder(q[offset..], meta[arg..]);
    assert buf + q[..offset] + q[offset..] == buf + q;
    assert newArgs + [] == newArgs;
  }

  /** Every recorded slice has at least one element. */
  predicate SpreadsNonEmpty<V>(ms: seq<Meta<V>>)
  {
    forall k :: 0 <= k < |ms| && ms[k].Spread? ==> |ms[k].elems| > 0
  }

  /** In's first loop: each argument is unwrapped if it is a Valuer and
      recorded either as a value or as the elements of a slice. */
  method PrepareArgs<V>(args: seq<Arg<V>>) returns (res: Result<seq<Meta<V>>, InError>, anySlices: bool)
    ensures res == Prepare(args)
    ensures res.Success? ==> (anySlices <==> AnySpread(res.value)) && SpreadsNonEmpty(res.value)
  {
    var meta: seq<Meta<V>> := [];
    anySlices := false;
    for i := 0 to |args|
      invariant Prepare(args[..i]) == Success(meta)
      invariant anySlices <==> AnySpread(meta)
      invariant SpreadsNonEmpty(meta)
    {
      PrepareStep(args, i, meta);
      var arg := args[i];
      if arg.Valuer? {
        if arg.produced.Failure? {
          return Failure(ValuerError(arg.produced.error)), anySlices;
        }
        arg := arg.produced.value;
      }
      var v := AsSliceForIn(arg);
      if v.Some? {
        if |v.value| == 0 {
          return Failure(EmptySlice), anySlices;
        }
        AnySpreadSnoc(meta, Spread(v.value));
        meta := meta + [Spread(v.value)];
        anySlices := true;
      } else {
        AnySpreadSnoc(meta, Single(arg));
        meta := meta + [Single(arg)];
      }
    }
    assert args[..|args|] == args;
    res := Success(meta);
  }

  /** Writes the query up to and including its `?`, then one `, ?` for
      every further element of the slice. */
  method WriteSpread(buf: string, upTo: string, length: nat) returns (r: string)
    requires length > 0
    ensures r == buf + upTo + Repeat(", ?", length - 1)
  {
    r := buf + upTo;
    for si := 1 to length
      invariant r == buf + upTo + Repeat(", ?", si - 1)
    {
      RepeatSnoc(", ?", si - 1);
      r := r + ", ?";
    }
  }

  /** Before the second loop nothing is written and nothing consumed. */
  lemma ExpandStart<V>(query: string, meta: seq<Meta<V>>)
    ensures ExpandInvariant(query, meta, "", query, 0, [], 0)
  {
    EmptyPrefix(query);
    EmptyPrefix(meta);
    assert "" + query[..0] == "";
    PrependEmpty(ExpandSpec(query, meta));
  }

  /** The slice case of the second loop: everything up to and including
      the `?` is written, then the extra placeholders; the elements are
      appended and the query is cut after the `?`. */
  method SpliceSlice<V>(query: string, meta: seq<Meta<V>>, buf: string, q: string, offset: nat, newArgs: seq<Arg<V>>, arg: nat, i: nat)
    returns (buf': string, q': string, newArgs': seq<Arg<V>>)
    requires ExpandInvariant(query, meta, buf, q, offset, newArgs, arg)
    requires i == IndexOfQ(q[offset..]) && arg < |meta| && meta[arg].Spread? && |meta[arg].elems| > 0
    ensures buf' == buf + q[..offset + i + 1] + Repeat(", ?", |meta[arg].elems| - 1)
    ensures q' == q[offset + i + 1..] && newArgs' == newArgs + meta[arg].elems
    ensures ExpandInvariant(query, meta, buf', q', 0, newArgs', arg + 1)
  {
    var elems := meta[arg].elems;
    buf' := WriteSpread(buf, q[..offset + i + 1], |elems|);
    newArgs' := AppendReflectSlice(newArgs, elems);
    q' := q[offset + i + 1..];
    ExpandSpreadStep(query, meta, buf, q, offset, newArgs, arg, i, buf', q', newArgs');
  }

  /** In's second loop: the text up to each `?` is copied, the `?` is
      widened for a slice, and the recorded arguments are appended. */
  method ExpandQuery<V>(query: string, meta: seq<Meta<V>>) returns (res: Result<(string, seq<Arg<V>>), InError>)
    requires SpreadsNonEmpty(meta)
    ensures res == ExpandSpec(query, meta)
  {
    var newArgs: seq<Arg<V>> := [];
    var buf := "";
    var q := query;
    var arg, offset := 0, 0;
    var i := IndexOfQ(q[offset..]);
    ExpandStart(query, meta);
    while i != -1
      invariant ExpandInvariant(query, meta, buf, q, offset, newArgs, arg)
      invariant i == IndexOfQ(q[offset..])
      decreases |q| - offset
    {
      if arg >= |meta| {
        ExpandTooMany(query, meta, buf, q, offset, newArgs, i);
        return Failure(TooManyBindVars);
      }
      var m := meta[arg];
      if m.Single? {
        ExpandSingleStep(query, meta, buf, q, offset, newArgs, arg, i);
        offset := offset + i + 1;
        newArgs := newArgs + [m.a];
      } else {
        buf, q, newArgs := SpliceSlice(query, meta, buf, q, offset, newArgs, arg, i);
        offset := 0;
      }
      arg := arg + 1;
      i := IndexOfQ(q[offset..]);
    }

    ExpandExit(query, meta, buf, q, offset, newArgs, arg);
    buf := buf + q;
    if arg < |meta| {
      return Failure(TooFewBindVars);
    }
    return Success((buf, newArgs));
  }

  /** In: without slice arguments the query and the arguments are returned
      as they came; otherwise the query is expanded. */
  method In<V>(query: string, args: seq<Arg<V>>) returns (res: Result<(string, seq<Arg<V>>), InError>)
    ensures res == InSpec(query, args)
  {
    var meta, anySlices := PrepareArgs(args);
    if meta.Failure? {
      return Failure(meta.error);
    }
    if !anySlices {
      return Success((query, args));
    }
    res := ExpandQuery(query, meta.value);
  }

  // ---------------------------------------------------------------------
  // Properties of In
  // ---------------------------------------------------------------------

  /** The first loop succeeds exactly when every argument is acceptable, and
      then records one entry per argument. */
  lemma {:induction false} PrepareSucceeds<V>(args: seq<Arg<V>>)
    ensures Prepare(args).Success? <==> forall k :: 0 <= k < |args| ==> Acceptable(args[k])
    ensures Prepare(args).Success? ==>
      |Prepare(args).value| == |args| &&
      forall k :: 0 <= k < |args| ==> Success(Prepare(args).value[k]) == PrepareArg(args[k])
    decreases |args|
  {
    forall a: Arg<V> ensures PrepareArg(a).Success? <==> Acceptable(a) {
    }
    if args != [] {
      var init := args[..|args| - 1];
      PrepareSucceeds(init);
      assert forall k :: 0 <= k < |init| ==> init[k] == args[k];
      if Prepare(args).Success? {
        assert Prepare(init).Success?;
      }
    }
  }

  /** The error In reports is that of the first argument the first loop
      rejects; the arguments after it are not looked at. */
  lemma PrepareFirstFailure<V>(args: seq<Arg<V>>, i: nat)
    requires i < |args| && !Acceptable(args[i])
    requires forall k :: 0 <= k < i ==> Acceptable(args[k])
    ensures Prepare(args) == Failure(PrepareArg(args[i]).error)
  {
    PrepareSucceeds(args[..i]);
    PrepareFailsAt(args, i);
  }

  lemma {:induction false} ExpandOutcome<V>(q: string, ms: seq<Meta<V>>)
    ensures ExpandSpec(q, ms).Success? <==> Count(q, '?') == |ms|
    ensures ExpandSpec(q, ms) == Failure(TooManyBindVars) <==> Count(q, '?') > |ms|
    ensures ExpandSpec(q, ms) == Failure(TooFewBindVars) <==> Count(q, '?') < |ms|
    decreases |q|
  {
    if q != [] {
      if q[0] == '?' {
        if ms != [] {
          ExpandOutcome(q[1..], ms[1..]);
        }
      } else {
        ExpandOutcome(q[1..], ms);
      }
    }
  }

  lemma {:induction false} CountRepeat(n: nat)
    ensures Count(Repeat(", ?", n), '?') == n
  {
    if n > 0 {
      CountRepeat(n - 1);
      CountAppend(", ?", Repeat(", ?", n - 1), '?');
    }
  }

  lemma CountWiden<V>(m: Meta<V>)
    requires Width(m) > 0
    ensures Count(Widen(m), '?') == Width(m)
  {
    CountRepeat(Width(m) - 1);
    CountAppend("?", Repeat(", ?", Width(m) - 1), '?');
  }

  /** A successful expansion consumes every recorded argument, puts their
      contributions in order, and leaves one `?` per output argument. */
  lemma {:induction false} ExpandSuccessShape<V>(q: string, ms: seq<Meta<V>>)
    requires ExpandSpec(q, ms).Success?
    requires forall k :: 0 <= k < |ms| ==> Width(ms[k]) > 0
    ensures ExpandSpec(q, ms).value.1 == Flatten(ms)
    ensures Count(ExpandSpec(q, ms).value.0, '?') == TotalWidth(ms)
    decreases |q|
  {
    if q != [] {
      var rest := ExpandSpec(q[1..], if q[0] == '?' then ms[1..] else ms);
      if q[0] == '?' {
        assert forall k :: 0 <= k < |ms[1..]| ==> ms[1..][k] == ms[k + 1];
        ExpandSuccessShape(q[1..], ms[1..]);
        CountWiden(ms[0]);
        CountAppend(Widen(ms[0]), rest.value.0, '?');
      } else {
        ExpandSuccessShape(q[1..], ms);
        CountAppend([q[0]], rest.value.0, '?');
      }
    }
  }

  lemma {:induction false} FlattenLength<V>(ms: seq<Meta<V>>)
    ensures |Flatten(ms)| == TotalWidth(ms)
  {
    if ms != [] {
      FlattenLength(ms[1..]);
    }
  }

  /** What the first loop records for one argument stands for that
      argument's own values. */
  lemma PreparedEntry<V>(a: Arg<V>, m: Meta<V>)
    requires Success(m) == PrepareArg(a)
    ensures Contribution(m) == ArgValues(a) && Width(m) > 0
    ensures m.Spread? <==> Unwrap(a).Success? && Unwrap(a).value.Slice?
  {
  }

  lemma {:induction false} FlattenValues<V>(args: seq<Arg<V>>, ms: seq<Meta<V>>)
    requires |ms| == |args|
    requires forall k :: 0 <= k < |args| ==> Success(ms[k]) == PrepareArg(args[k])
    ensures Flatten(ms) == FlatValues(args)
  {
    if args != [] {
      PreparedEntry(args[0], ms[0]);
      var args', ms' := args[1..], ms[1..];
      forall k | 0 <= k < |args'|
        ensures Success(ms'[k]) == PrepareArg(args'[k])
      {
        assert args'[k] == args[k + 1] && ms'[k] == ms[k + 1];
      }
      FlattenValues(args', ms');
    }
  }

  /** The recorded entries stand for the arguments' own values. */
  lemma FlattenPrepared<V>(args: seq<Arg<V>>, ms: seq<Meta<V>>)
    requires |ms| == |args|
    requires forall k :: 0 <= k < |args| ==> Success(ms[k]) == PrepareArg(args[k])
    ensures Flatten(ms) == FlatValues(args)
    ensures forall k :: 0 <= k < |ms| ==> Width(ms[k]) > 0
    ensures AnySpread(ms) <==> exists k :: 0 <= k < |args| && Unwrap(args[k]).Success? && Unwrap(args[k]).value.Slice?
  {
    FlattenValues(args, ms);
    forall k | 0 <= k < |ms|
      ensures Width(ms[k]) > 0
      ensures ms[k].Spread? <==> Unwrap(args[k]).Success? && Unwrap(args[k]).value.Slice?
    {
      PreparedEntry(args[k], ms[k]);
    }
  }

  /** With no slice among the arguments the query and the ORIGINAL arguments
      come back unchanged, whatever the number of placeholders. */
  lemma InWithoutSlices<V>(query: string, args: seq<Arg<V>>)
    requires forall k :: 0 <= k < |args| ==> Unwrap(args[k]).Success? && !Unwrap(args[k]).value.Slice?
    ensures InSpec(query, args) == Success((query, args))
  {
    PrepareSucceeds(args);
    FlattenPrepared(args, Prepare(args).value);
  }

  /** With at least one slice every `?` must find an argument and every
      argument a `?`; on success each slice is spliced in place, in order,
      and the new query has one `?` per new argument. */
  lemma InWithSlices<V>(query: string, args: seq<Arg<V>>, j: nat)
    requires forall k :: 0 <= k < |args| ==> Acceptable(args[k])
    requires j < |args| && Unwrap(args[j]).Success? && Unwrap(args[j]).value.Slice?
    ensures InSpec(query, args).Success? <==> Count(query, '?') == |args|
    ensures InSpec(query, args) == Failure(TooManyBindVars) <==> Count(query, '?') > |args|
    ensures InSpec(query, args) == Failure(TooFewBindVars) <==> Count(query, '?') < |args|
    ensures InSpec(query, args).Success? ==>
      InSpec(query, args).value.1 == FlatValues(args) &&
      Count(InSpec(query, args).value.0, '?') == |FlatValues(args)|
  {
    PrepareSucceeds(args);
    var ms := Prepare(args).value;
    FlattenPrepared(args, ms);
    ExpandOutcome(query, ms);
    FlattenLength(ms);
    if ExpandSpec(query, ms).Success? {
      ExpandSuccessShape(query, ms);
    }
  }

  lemma InEmptySlice<V>(query: string, args: seq<Arg<V>>, i: nat)
    requires i < |args| && Unwrap(args[i]) == Success(Slice([]))
    requires forall k :: 0 <= k < i ==> Acceptable(args[k])
    ensures InSpec(query, args) == Failure(EmptySlice)
  {
    PrepareFirstFailure(args, i);
  }

  lemma InValuerFails<V>(query: string, args: seq<Arg<V>>, i: nat, e: string)
    requires i < |args| && args[i] == Valuer(Failure(e))
    requires forall k :: 0 <= k < i ==> Acceptable(args[k])
    ensures InSpec(query, args) == Failure(ValuerError(e))
  {
    PrepareFirstFailure(args, i);
  }

  /** A []byte value and nil pass through as one argument each. */
  lemma BytesAndNilNotExpanded<V>(b: seq<Encoder.byte>)
    ensures ArgValues(Arg<V>.Bytes(b)) == [Arg<V>.Bytes(b)] && PrepareArg(Arg<V>.Bytes(b)) == Success(Single(Arg<V>.Bytes(b)))
    ensures ArgValues(Arg<V>.Nil) == [Arg<V>.Nil] && PrepareArg(Arg<V>.Nil) == Success(Single(Arg<V>.Nil))
  {
  }

  /** The next `?` after plain text takes the next argument. */
  lemma ExpandFront<V>(a: string, rest: string, m: Meta<V>, ms: seq<Meta<V>>)
    requires '?' !in a
    ensures ExpandSpec(a + "?" + rest, [m] + ms) == Prepend(a + Widen(m), Contribution(m), ExpandSpec(rest, ms))
  {
    var e: seq<Arg<V>> := [];
    assert a + "?" + rest == a + ("?" + rest);
    ExpandPlainPrefix(a, "?" + rest, [m] + ms);
    assert ("?" + rest)[0] == '?' && ("?" + rest)[1..] == rest;
    assert ([m] + ms)[0] == m && ([m] + ms)[1..] == ms;
    PrependAssoc(a, e, Widen(m), Contribution(m), ExpandSpec(rest, ms));
    assert e + Contribution(m) == Contribution(m);
  }

  lemma ExamplePrepare(args: seq<Arg<int>>, ms: seq<Meta<int>>)
    requires args == [Slice([Scalar(1), Scalar(2), Scalar(3)]), Scalar(5)]
    requires ms == [Spread([Scalar(1), Scalar(2), Scalar(3)]), Single(Scalar(5))]
    ensures Prepare(args) == Success(ms) && AnySpread(ms)
  {
    var none: seq<Meta<int>> := [];
    assert args[..1] == [args[0]] && [args[0]][..0] == [];
    assert Prepare([args[0]][..0]) == Success(none);
    assert none + [ms[0]] == [ms[0]];
    assert Prepare([args[0]]) == Success([ms[0]]);
    assert [ms[0]] + [ms[1]] == ms;
    assert ms[0].Spread?;
  }

  /** The package's own In test: a slice of three and a scalar. */
  lemma InExample(q: string, a: string, b: string, args: seq<Arg<int>>)
    requires a == "SELECT id FROM table WHERE id IN (" && b == ") AND pid = "
    requires q == a + "?" + b + "?"
    requires args == [Slice([Scalar(1), Scalar(2), Scalar(3)]), Scalar(5)]
    ensures InSpec(q, args) == Success((a + "?, ?, ?" + b + "?", [Scalar(1), Scalar(2), Scalar(3), Scalar(5)]))
  {
    var elems: seq<Arg<int>> := [Scalar(1), Scalar(2), Scalar(3)];
    var ms: seq<Meta<int>> := [Spread(elems), Single(Scalar(5))];
    var none: seq<Meta<int>> := [];
    var e: seq<Arg<int>> := [];
    ExamplePrepare(args, ms);
    assert ExpandSpec(b + "?" + "", [ms[1]]) == Success((b + "?" + "", [Scalar(5)] + e)) by {
      ExpandFront(b, "", ms[1], none);
      assert Widen(ms[1]) == "?";
      assert [ms[1]] + none == [ms[1]];
    }
    assert ExpandSpec(q, ms) == Success((a + "?, ?, ?" + b + "?", [Scalar(1), Scalar(2), Scalar(3), Scalar(5)])) by {
      ExpandFront(a, b + "?" + "", ms[0], [ms[1]]);
      assert Widen(ms[0]) == "?, ?, ?" by {
        assert Repeat(", ?", 2) == ", ?, ?";
      }
      assert [ms[0]] + [ms[1]] == ms;
      assert a + "?" + (b + "?" + "") == q;
      assert a + "?, ?, ?" + (b + "?" + "") == a + "?, ?, ?" + b + "?";
      assert elems + ([Scalar(5)] + e) == [Scalar(1), Scalar(2), Scalar(3), Scalar(5)];
    }
  }

  // ---------------------------------------------------------------------
  // Rebind
  // ---------------------------------------------------------------------

  /** What one character of the query becomes when the next placeholder
      number is j, and the number after it. */
  function RebindChar(c: char, j: nat): string
  {
    if c == '?' then "$" + NatToString(j) else [c]
  }

  function NextNumber(c: char, j: nat): nat
  {
    if c == '?' then j + 1 else j
  }

  /** The renumbering from the j-th placeholder on. */
  function RebindFrom(s: string, j: nat): string
  {
    if s == [] then "" else RebindChar(s[0], j) + RebindFrom(s[1..], NextNumber(s[0], j))
  }

  lemma RebindCons(s: string, j: nat)
    requires s != []
    ensures RebindFrom(s, j) == RebindChar(s[0], j) + RebindFrom(s[1..], NextNumber(s[0], j))
  {
  }

  lemma {:induction false} RebindAppend(a: string, b: string, j: nat)
    ensures RebindFrom(a + b, j) == RebindFrom(a, j) + RebindFrom(b, j + Count(a, '?'))
  {
    if a == [] {
      assert a + b == b;
    } else {
      ConsAppend(a, b);
      var t := a[1..];
      var c: nat := j + Count(a, '?');
      var j' := NextNumber(a[0], j);
      if a[0] == '?' {
        assert j' == j + 1 && c == j' + Count(t, '?');
      } else {
        assert j' == j && c == j' + Count(t, '?');
      }
      RebindAppend(t, b, j');
      RebindCons(a + b, j);
      RebindCons(a, j);
      Assoc(RebindChar(a[0], j), RebindFrom(t, j'), RebindFrom(b, c));
    }
  }

  lemma {:induction false} RebindNoPlaceholder(s: string, j: nat)
    requires '?' !in s
    ensures RebindFrom(s, j) == s
  {
    if s != [] {
      assert s == [s[0]] + s[1..];
      RebindNoPlaceholder(s[1..], j);
    }
  }

  /** One turn of Rebind's loop: the text up to the next `?`, then `$j`. */
  lemma RebindStep(q: string, i: nat, j: nat, done: string)
    requires i < |q| && q[i] == '?' && '?' !in q[..i]
    ensures done + RebindFrom(q, j) == (done + (q[..i] + "$" + NatToString(j))) + RebindFrom(q[i + 1..], j + 1)
  {
    var p, t := q[..i], q[i..];
    assert q == p + t;
    assert t[0] == '?' && t[1..] == q[i + 1..];
    RebindPlainPrefix(p, t, j);
    var u := RebindFrom(q[i + 1..], j + 1);
    var n := "$" + NatToString(j);
    var x := RebindFrom(q, j);
    var y := RebindFrom(t, j);
    assert y == n + u;
    assert x == p + (n + u);
    assert done + x == (done + (p + n)) + u;
  }

  method Rebind(query: string) returns (r: string)
    ensures r == RebindFrom(query, 1)
  {
    var rqb := "";
    var j := 0;
    var q := query;
    var i := IndexOfQ(q);
    while i != -1
      invariant i == IndexOfQ(q)
      invariant rqb + RebindFrom(q, j + 1) == RebindFrom(query, 1)
      decreases |q|
    {
      var piece := q[..i] + "$" + NatToString(j + 1);
      RebindStep(q, i, j + 1, rqb);
      rqb := rqb + piece;
      j := j + 1;
      q := q[i + 1..];
      i := IndexOfQ(q);
    }
    RebindNoPlaceholder(q, j + 1);
    r := rqb + q;
  }

  /** Rebind never leaves a `?` behind. */
  lemma {:induction false} RebindLeavesNoPlaceholder(s: string, j: nat)
    ensures '?' !in RebindFrom(s, j)
  {
    if s != [] {
      RebindLeavesNoPlaceholder(s[1..], NextNumber(s[0], j));
      if s[0] == '?' {
        assert '?' !in NatToString(j);
      }
    }
  }

  /** Each `?` becomes one `$`: the dollar count grows by the number of
      placeholders. */
  lemma {:induction false} RebindDollarCount(s: string, j: nat)
    ensures Count(RebindFrom(s, j), '$') == Count(s, '$') + Count(s, '?')
  {
    if s != [] {
      RebindDollarCount(s[1..], NextNumber(s[0], j));
      CountAppend(RebindChar(s[0], j), RebindFrom(s[1..], NextNumber(s[0], j)), '$');
      if s[0] == '?' {
        assert Count(NatToString(j), '$') == 0;
        CountAppend("$", NatToString(j), '$');
      }
    }
  }

  /** A `?` at the front takes the number j. */
  lemma RebindPlaceholderFront(b: string, j: nat)
    ensures RebindFrom("?" + b, j) == "$" + NatToString(j) + RebindFrom(b, j + 1)
  {
    ConsAppend("?", b);
  }

  /** The k-th `?` (counting from 1) becomes `$k`; the text before it is
      renumbered on its own and the text after it goes on from k + 1. */
  lemma RebindNumbersInOrder(a: string, b: string, k: nat)
    requires k == Count(a, '?') + 1
    ensures RebindFrom(a + "?" + b, 1) == RebindFrom(a, 1) + "$" + NatToString(k) + RebindFrom(b, k + 1)
  {
    Assoc(a, "?", b);
    RebindAppend(a, "?" + b, 1);
    var k': nat := 1 + Count(a, '?');
    assert k' == k;
    RebindPlaceholderFront(b, k);
    var r, n, u := RebindFrom(a, 1), "$" + NatToString(k), RebindFrom(b, k + 1);
    Assoc(r, n, u);
    Assoc(r, "$", NatToString(k));
  }

  /** Text without placeholders is copied as it is. */
  lemma {:induction false} RebindPlainPrefix(a: string, rest: string, j: nat)
    requires '?' !in a
    ensures RebindFrom(a + rest, j) == a + RebindFrom(rest, j)
  {
    var y := RebindFrom(rest, j);
    if a == [] {
      assert a + rest == rest;
    } else {
      var c, t := a[0], a[1..];
      assert a == [c] + t;
      var ar := a + rest;
      assert ar[0] == c && ar[1..] == t + rest;
      assert c != '?' && '?' !in t;
      RebindPlainPrefix(t, rest, j);
      calc {
        RebindFrom(ar, j);
        [c] + RebindFrom(t + rest, j);
        [c] + (t + y);
        ([c] + t) + y;
      }
    }
  }
}
