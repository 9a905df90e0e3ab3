/** Placeholder grammars of the literal renderer: style detection, and the
    two regular expressions `\$(\d+)` and `([^:])(:[a-z0-9_]+)` written as
    left-to-right scanners that cut a query into pieces. Rewriting a query
    with ReplaceAllString is then printing its pieces, and substituting the
    literals is a lookup per piece. */
module Placeholders {
  import opened Wrappers
  import opened Text
  import opened SeqFacts
  import opened Encoder

  datatype Style = Positional | Numbered | Named

  /** `\$(\d+)` matches at position i. */
  predicate NumberedMatchAt(s: string, i: int)
  {
    0 <= i < |s| - 1 && s[i] == '$' && IsDigit(s[i + 1])
  }

  predicate HasNumbered(s: string)
    ensures HasNumbered(s) ==> '$' in s
  {
    exists i :: 0 <= i < |s| && NumberedMatchAt(s, i)
  }

  /** `([^:])(:[a-z0-9_]+)` matches at position i. */
  predicate NamedMatchAt(s: string, i: int)
  {
    0 <= i < |s| - 2 && s[i] != ':' && s[i + 1] == ':' && IsIdentChar(s[i + 2])
  }

  predicate HasNamed(s: string)
    ensures HasNamed(s) ==> ':' in s
  {
    exists i :: 0 <= i < |s| && NamedMatchAt(s, i)
  }

  /** The style switch of Inline: `?` first, then `$n`, then `:name`. */
  function Detect(s: string): (r: Option<Style>)
    ensures r == Some(Positional) <==> '?' in s
    ensures r == Some(Numbered) <==> '?' !in s && HasNumbered(s)
    ensures r == Some(Named) <==> '?' !in s && !HasNumbered(s) && HasNamed(s)
    ensures r == None <==> '?' !in s && !HasNumbered(s) && !HasNamed(s)
  {
    if '?' in s then Some(Positional)
    else if HasNumbered(s) then Some(Numbered)
    else if HasNamed(s) then Some(Named)
    else None
  }

  /** A piece of a scanned query: a character copied as it is, a numbered
      placeholder `$digits`, or a named one `c:ident` together with the
      non-colon character c the pattern consumes before it. */
  datatype Piece = Lit(c: char) | Num(digits: string) | Name(prefix: char, ident: string)

  /** Length of the longest prefix of s made of digits. */
  function DigitRun(s: string): (n: nat)
    ensures n <= |s|
    ensures forall k :: 0 <= k < n ==> IsDigit(s[k])
    ensures n < |s| ==> !IsDigit(s[n])
  {
    if s == [] || !IsDigit(s[0]) then 0 else 1 + DigitRun(s[1..])
  }

  /** Length of the longest prefix of s made of `[a-z0-9_]`. */
  function IdentRun(s: string): (n: nat)
    ensures n <= |s|
    ensures forall k :: 0 <= k < n ==> IsIdentChar(s[k])
    ensures n < |s| ==> !IsIdentChar(s[n])
  {
    if s == [] || !IsIdentChar(s[0]) then 0 else 1 + IdentRun(s[1..])
  }

  /** Leftmost, non-overlapping, greedy matches of `\$(\d+)`. */
  function ScanNumbered(s: string): seq<Piece>
    decreases |s|
  {
    if s == [] then []
    else if NumberedMatchAt(s, 0) then
      var n := DigitRun(s[1..]);
      [Num(s[1..1 + n])] + ScanNumbered(s[1 + n..])
    else [Lit(s[0])] + ScanNumbered(s[1..])
  }

  /** Leftmost, non-overlapping, greedy matches of `([^:])(:[a-z0-9_]+)`. */
  function ScanNamed(s: string): seq<Piece>
    decreases |s|
  {
    if s == [] then []
    else if NamedMatchAt(s, 0) then
      var n := IdentRun(s[2..]);
      [Name(s[0], s[2..2 + n])] + ScanNamed(s[2 + n..])
    else [Lit(s[0])] + ScanNamed(s[1..])
  }

  /** The text a piece was cut from. */
  function PieceSource(p: Piece): string
  {
    match p
    case Lit(c) => [c]
    case Num(d) => "$" + d
    case Name(c, id) => [c] + ":" + id
  }

  /** The text ReplaceAllString puts in place of a piece: `$n` becomes
      `$n$`, `c:id` becomes `c$:id$`. */
  function PieceToken(p: Piece): string
  {
    match p
    case Lit(c) => [c]
    case Num(d) => "$" + d + "$"
    case Name(c, id) => [c] + "$:" + id + "$"
  }

  /** The key a numbered token `$d$` is replaced for: the token is the one
      built as "$" + Itoa(idx + 1) + "$" exactly when d is the canonical
      decimal of idx + 1. */
  function NumberedKey(d: string): Option<int>
  {
    if AllDigits(d) && DigitsValue(d) >= 1 && NatToString(DigitsValue(d)) == d
    then Some(DigitsValue(d) - 1) else None
  }

  /** A piece after the literal substitution of the renderer. */
  function PieceOut(p: Piece, vars: map<Key, string>): string
  {
    match p
    case Lit(c) => [c]
    case Num(d) =>
      var k := NumberedKey(d);
      if k.Some? && IntKey(k.value) in vars then vars[IntKey(k.value)] else PieceToken(p)
    case Name(c, id) =>
      if NameKey(id) in vars then [c] + vars[NameKey(id)] else PieceToken(p)
  }

  function Source(ps: seq<Piece>): string
  {
    if ps == [] then "" else PieceSource(ps[0]) + Source(ps[1..])
  }

  function Tokenized(ps: seq<Piece>): string
  {
    if ps == [] then "" else PieceToken(ps[0]) + Tokenized(ps[1..])
  }

  function Substituted(ps: seq<Piece>, vars: map<Key, string>): string
  {
    if ps == [] then "" else PieceOut(ps[0], vars) + Substituted(ps[1..], vars)
  }

  // ---------------------------------------------------------------------
  // The scanners cut the query without losing or adding text
  // ---------------------------------------------------------------------

  lemma SourceCons(p: Piece, qs: seq<Piece>)
    ensures Source([p] + qs) == PieceSource(p) + Source(qs)
  {
    assert ([p] + qs)[0] == p && ([p] + qs)[1..] == qs;
  }

  lemma {:induction false} ScanNumberedLossless(s: string)
    ensures Source(ScanNumbered(s)) == s
    decreases |s|
  {
    if s != [] {
      if NumberedMatchAt(s, 0) {
        var n := DigitRun(s[1..]);
        var rest := s[1 + n..];
        ScanNumberedLossless(rest);
        SourceCons(Num(s[1..1 + n]), ScanNumbered(rest));
        SplitHead(s, n);
        assert [s[0]] == "$";
      } else {
        ScanNumberedLossless(s[1..]);
        SourceCons(Lit(s[0]), ScanNumbered(s[1..]));
        SplitFirst(s);
      }
    }
  }

  lemma {:induction false} ScanNamedLossless(s: string)
    ensures Source(ScanNamed(s)) == s
    decreases |s|
  {
    if s != [] {
      if NamedMatchAt(s, 0) {
        var n := IdentRun(s[2..]);
        var rest := s[2 + n..];
        ScanNamedLossless(rest);
        SourceCons(Name(s[0], s[2..2 + n]), ScanNamed(rest));
        SplitHead2(s, ':', n);
      } else {
        ScanNamedLossless(s[1..]);
        SourceCons(Lit(s[0]), ScanNamed(s[1..]));
        SplitFirst(s);
      }
    }
  }

  // ---------------------------------------------------------------------
  // The pieces are the pattern's matches, and they are maximal
  // ---------------------------------------------------------------------

  /** Every numbered piece is a maximal, non-empty digit run: `$1` is never
      cut out of `$12`. */
  predicate NumberedWellFormed(ps: seq<Piece>)
  {
    forall k :: 0 <= k < |ps| && ps[k].Num? ==>
      |ps[k].digits| > 0 && AllDigits(ps[k].digits)
      && (k + 1 < |ps| ==> !(ps[k + 1].Lit? && IsDigit(ps[k + 1].c)))
  }

  /** The first piece of a scan starts with the first character. */
  lemma ScanNumberedHead(s: string)
    requires s != []
    ensures ScanNumbered(s) != []
    ensures ScanNumbered(s)[0].Lit? ==> ScanNumbered(s)[0].c == s[0]
    ensures ScanNumbered(s)[0].Num? ==> s[0] == '$'
  {
  }

  lemma NumberedWellFormedCons(p: Piece, qs: seq<Piece>)
    requires NumberedWellFormed(qs)
    requires p.Num? ==> |p.digits| > 0 && AllDigits(p.digits) && (qs != [] ==> !(qs[0].Lit? && IsDigit(qs[0].c)))
    ensures NumberedWellFormed([p] + qs)
  {
    var ps := [p] + qs;
    forall k | 0 <= k < |ps| && ps[k].Num?
      ensures |ps[k].digits| > 0 && AllDigits(ps[k].digits)
      ensures k + 1 < |ps| ==> !(ps[k + 1].Lit? && IsDigit(ps[k + 1].c))
    {
      if k > 0 {
        assert ps[k] == qs[k - 1];
        if k + 1 < |ps| {
          assert ps[k + 1] == qs[k];
        }
      }
    }
  }

  lemma {:induction false} ScanNumberedWellFormed(s: string)
    ensures NumberedWellFormed(ScanNumbered(s))
    decreases |s|
  {
    if s != [] {
      if NumberedMatchAt(s, 0) {
        var n := DigitRun(s[1..]);
        var rest := s[1 + n..];
        ScanNumberedWellFormed(rest);
        if rest != [] {
          ScanNumberedHead(rest);
          assert rest[0] == s[1..][n];
        }
        NumberedWellFormedCons(Num(s[1..1 + n]), ScanNumbered(rest));
      } else {
        ScanNumberedWellFormed(s[1..]);
        NumberedWellFormedCons(Lit(s[0]), ScanNumbered(s[1..]));
      }
    }
  }

  /** Every named piece is a maximal, non-empty identifier run whose colon
      follows a non-colon character: `::text` and a `:x` at offset 0 are
      not placeholders, and `:name` is never cut out of `:name2`. */
  predicate NamedWellFormed(ps: seq<Piece>)
  {
    forall k :: 0 <= k < |ps| && ps[k].Name? ==>
      ps[k].prefix != ':' && |ps[k].ident| > 0
      && (forall j :: 0 <= j < |ps[k].ident| ==> IsIdentChar(ps[k].ident[j]))
      && (k + 1 < |ps| ==> !(ps[k + 1].Lit? && IsIdentChar(ps[k + 1].c)))
      && (k + 1 < |ps| ==> !ps[k + 1].Name? || !IsIdentChar(ps[k + 1].prefix))
  }

  lemma ScanNamedHead(s: string)
    requires s != []
    ensures ScanNamed(s) != []
    ensures ScanNamed(s)[0].Lit? ==> ScanNamed(s)[0].c == s[0]
    ensures ScanNamed(s)[0].Name? ==> ScanNamed(s)[0].prefix == s[0]
  {
  }

  /** What the first piece must satisfy for a well-formed tail to stay
      well-formed. */
  predicate NamedHeadOk(p: Piece, qs: seq<Piece>)
  {
    p.Name? ==>
      p.prefix != ':' && |p.ident| > 0
      && (forall j :: 0 <= j < |p.ident| ==> IsIdentChar(p.ident[j]))
      && (qs != [] ==> !(qs[0].Lit? && IsIdentChar(qs[0].c)) && (!qs[0].Name? || !IsIdentChar(qs[0].prefix)))
  }

  lemma NamedWellFormedCons(p: Piece, qs: seq<Piece>)
    requires NamedWellFormed(qs) && NamedHeadOk(p, qs)
    ensures NamedWellFormed([p] + qs)
  {
    var ps := [p] + qs;
    forall k | 0 <= k < |ps| && ps[k].Name?
      ensures ps[k].prefix != ':' && |ps[k].ident| > 0
      ensures forall j :: 0 <= j < |ps[k].ident| ==> IsIdentChar(ps[k].ident[j])
      ensures k + 1 < |ps| ==> !(ps[k + 1].Lit? && IsIdentChar(ps[k + 1].c))
      ensures k + 1 < |ps| ==> !ps[k + 1].Name? || !IsIdentChar(ps[k + 1].prefix)
    {
      if k > 0 {
        assert ps[k] == qs[k - 1];
        if k + 1 < |ps| {
          assert ps[k + 1] == qs[k];
        }
      }
    }
  }

  lemma {:induction false} ScanNamedWellFormed(s: string)
    ensures NamedWellFormed(ScanNamed(s))
    decreases |s|
  {
    if s != [] {
      if NamedMatchAt(s, 0) {
        var n := IdentRun(s[2..]);
        var rest := s[2 + n..];
        ScanNamedWellFormed(rest);
        if rest != [] {
          ScanNamedHead(rest);
          assert rest[0] == s[2..][n];
        }
        var p := Name(s[0], s[2..2 + n]);
        assert forall j :: 0 <= j < |p.ident| ==> p.ident[j] == s[2..][j];
        assert NamedHeadOk(p, ScanNamed(rest));
        NamedWellFormedCons(p, ScanNamed(rest));
      } else {
        ScanNamedWellFormed(s[1..]);
        NamedWellFormedCons(Lit(s[0]), ScanNamed(s[1..]));
      }
    }
  }

  // ---------------------------------------------------------------------
  // The scanners miss no match
  // ---------------------------------------------------------------------

  /** No match is left behind as plain text: a `$` copied as a character is
      never followed by a digit copied as a character. */
  predicate NumberedComplete(ps: seq<Piece>)
  {
    forall k :: 0 <= k < |ps| - 1 && ps[k] == Lit('$') ==> !(ps[k + 1].Lit? && IsDigit(ps[k + 1].c))
  }

  lemma NumberedCompleteCons(p: Piece, qs: seq<Piece>)
    requires NumberedComplete(qs)
    requires p == Lit('$') && qs != [] ==> !(qs[0].Lit? && IsDigit(qs[0].c))
    ensures NumberedComplete([p] + qs)
  {
    var ps := [p] + qs;
    forall k | 0 <= k < |ps| - 1 && ps[k] == Lit('$')
      ensures !(ps[k + 1].Lit? && IsDigit(ps[k + 1].c))
    {
      assert ps[k + 1] == qs[k];
      if k > 0 {
        assert ps[k] == qs[k - 1];
      }
    }
  }

  /** Every `$digit` of the query is cut out as a numbered piece, so every
      one of them becomes a `$n$` token. */
  lemma {:induction false} ScanNumberedComplete(s: string)
    ensures NumberedComplete(ScanNumbered(s))
    decreases |s|
  {
    if s != [] {
      if NumberedMatchAt(s, 0) {
        var n := DigitRun(s[1..]);
        ScanNumberedComplete(s[1 + n..]);
        NumberedCompleteCons(Num(s[1..1 + n]), ScanNumbered(s[1 + n..]));
      } else {
        var t := s[1..];
        ScanNumberedComplete(t);
        if t != [] {
          ScanNumberedHead(t);
        }
        NumberedCompleteCons(Lit(s[0]), ScanNumbered(t));
      }
    }
  }

  /** The first character of the text a piece was cut from. */
  function Lead(p: Piece): char
  {
    match p
    case Lit(c) => c
    case Num(_) => '$'
    case Name(c, _) => c
  }

  /** No named match is left behind as plain text: a non-colon character
      and a colon copied as characters are never followed by a piece that
      starts with an identifier character. */
  predicate NamedComplete(ps: seq<Piece>)
  {
    forall k :: 0 <= k < |ps| - 2 && ps[k].Lit? && ps[k].c != ':' && ps[k + 1] == Lit(':') ==>
      !IsIdentChar(Lead(ps[k + 2]))
  }

  lemma ScanNamedLead(s: string)
    requires s != []
    ensures ScanNamed(s) != [] && Lead(ScanNamed(s)[0]) == s[0]
  {
  }

  lemma NamedCompleteCons(p: Piece, qs: seq<Piece>)
    requires NamedComplete(qs)
    requires p.Lit? && p.c != ':' && |qs| >= 2 && qs[0] == Lit(':') ==> !IsIdentChar(Lead(qs[1]))
    ensures NamedComplete([p] + qs)
  {
    var ps := [p] + qs;
    forall k | 0 <= k < |ps| - 2 && ps[k].Lit? && ps[k].c != ':' && ps[k + 1] == Lit(':')
      ensures !IsIdentChar(Lead(ps[k + 2]))
    {
      assert ps[k + 1] == qs[k] && ps[k + 2] == qs[k + 1];
      if k > 0 {
        assert ps[k] == qs[k - 1];
      }
    }
  }

  /** Every `c:ident` match of the query (c not a colon) is cut out as a
      named piece, so every one of them becomes a `c$:ident$` token. */
  lemma {:induction false} ScanNamedComplete(s: string)
    ensures NamedComplete(ScanNamed(s))
    decreases |s|
  {
    if s != [] {
      if NamedMatchAt(s, 0) {
        var n := IdentRun(s[2..]);
        ScanNamedComplete(s[2 + n..]);
        NamedCompleteCons(Name(s[0], s[2..2 + n]), ScanNamed(s[2 + n..]));
      } else {
        var t := s[1..];
        ScanNamedComplete(t);
        if t != [] && t[0] == ':' {
          var u := t[1..];
          assert !NamedMatchAt(t, 0);
          assert ScanNamed(t) == [Lit(':')] + ScanNamed(u);
          if u != [] {
            ScanNamedLead(u);
            assert u[0] == s[2];
          }
        } else if t != [] {
          ScanNamedHead(t);
        }
        NamedCompleteCons(Lit(s[0]), ScanNamed(t));
      }
    }
  }

  /** A query whose first character is `:` does not start with a named
      placeholder. */
  lemma LeadingColonIsText(s: string)
    requires s != [] && s[0] == ':'
    ensures ScanNamed(s)[0] == Lit(':')
  {
  }

  predicate HasNumPiece(ps: seq<Piece>)
  {
    exists k :: 0 <= k < |ps| && ps[k].Num?
  }

  predicate HasNamePiece(ps: seq<Piece>)
  {
    exists k :: 0 <= k < |ps| && ps[k].Name?
  }

  lemma HasNumPieceCons(p: Piece, qs: seq<Piece>)
    ensures HasNumPiece([p] + qs) <==> p.Num? || HasNumPiece(qs)
  {
    var ps := [p] + qs;
    if HasNumPiece(qs) {
      var k :| 0 <= k < |qs| && qs[k].Num?;
      assert ps[k + 1] == qs[k];
    }
    if HasNumPiece(ps) {
      var k :| 0 <= k < |ps| && ps[k].Num?;
      if k > 0 {
        assert qs[k - 1] == ps[k];
      }
    }
    if p.Num? {
      assert ps[0].Num?;
    }
  }

  lemma HasNamePieceCons(p: Piece, qs: seq<Piece>)
    ensures HasNamePiece([p] + qs) <==> p.Name? || HasNamePiece(qs)
  {
    var ps := [p] + qs;
    if HasNamePiece(qs) {
      var k :| 0 <= k < |qs| && qs[k].Name?;
      assert ps[k + 1] == qs[k];
    }
    if HasNamePiece(ps) {
      var k :| 0 <= k < |ps| && ps[k].Name?;
      if k > 0 {
        assert qs[k - 1] == ps[k];
      }
    }
    if p.Name? {
      assert ps[0].Name?;
    }
  }

  /** A match of the pattern shifted by one character. */
  lemma HasNumberedTail(s: string)
    requires s != [] && !NumberedMatchAt(s, 0)
    ensures HasNumbered(s) <==> HasNumbered(s[1..])
  {
    var t := s[1..];
    if HasNumbered(s) {
      var i :| 0 <= i < |s| && NumberedMatchAt(s, i);
      assert NumberedMatchAt(t, i - 1);
    }
    if HasNumbered(t) {
      var i :| 0 <= i < |t| && NumberedMatchAt(t, i);
      assert t[i] == s[i + 1] && t[i + 1] == s[i + 2];
      assert NumberedMatchAt(s, i + 1);
    }
  }

  lemma HasNamedTail(s: string)
    requires s != [] && !NamedMatchAt(s, 0)
    ensures HasNamed(s) <==> HasNamed(s[1..])
  {
    var t := s[1..];
    if HasNamed(s) {
      var i :| 0 <= i < |s| && NamedMatchAt(s, i);
      assert NamedMatchAt(t, i - 1);
    }
    if HasNamed(t) {
      var i :| 0 <= i < |t| && NamedMatchAt(t, i);
      assert t[i] == s[i + 1] && t[i + 1] == s[i + 2] && t[i + 2] == s[i + 3];
      assert NamedMatchAt(s, i + 1);
    }
  }

  /** Style detection and the scanner agree: the query has a `$n` match
      exactly when the scan yields a numbered piece. */
  lemma {:induction false} HasNumberedIffPiece(s: string)
    ensures HasNumbered(s) <==> HasNumPiece(ScanNumbered(s))
    decreases |s|
  {
    if s != [] {
      if NumberedMatchAt(s, 0) {
        var n := DigitRun(s[1..]);
        HasNumPieceCons(Num(s[1..1 + n]), ScanNumbered(s[1 + n..]));
      } else {
        HasNumberedIffPiece(s[1..]);
        HasNumberedTail(s);
        HasNumPieceCons(Lit(s[0]), ScanNumbered(s[1..]));
      }
    }
  }

  /** The same for `:name` matches and named pieces. */
  lemma {:induction false} HasNamedIffPiece(s: string)
    ensures HasNamed(s) <==> HasNamePiece(ScanNamed(s))
    decreases |s|
  {
    if s != [] {
      if NamedMatchAt(s, 0) {
        var n := IdentRun(s[2..]);
        HasNamePieceCons(Name(s[0], s[2..2 + n]), ScanNamed(s[2 + n..]));
      } else {
        HasNamedIffPiece(s[1..]);
        HasNamedTail(s);
        HasNamePieceCons(Lit(s[0]), ScanNamed(s[1..]));
      }
    }
  }

  // ---------------------------------------------------------------------
  // Substitution
  // ---------------------------------------------------------------------

  /** A numbered token is replaced for key idx exactly when its digits are
      the decimal of idx + 1. */
  lemma NumberedKeyOf(idx: nat, d: string)
    ensures NumberedKey(d) == Some(idx) <==> d == NatToString(idx + 1)
  {
    NatToStringRoundTrip(idx + 1);
  }

  /** With no matching literal every placeholder survives as its token:
      an unmatched `$n` is left as `$n$`. */
  lemma {:induction false} SubstitutedWithoutMatches(ps: seq<Piece>, vars: map<Key, string>)
    requires forall k :: 0 <= k < |ps| ==> PieceOut(ps[k], vars) == PieceToken(ps[k])
    ensures Substituted(ps, vars) == Tokenized(ps)
  {
    if ps != [] {
      SubstitutedWithoutMatches(ps[1..], vars);
    }
  }

  /** Substitution works piece by piece, so it never rescans a literal it
      has put in. */
  lemma {:induction false} SubstitutedAppend(a: seq<Piece>, b: seq<Piece>, vars: map<Key, string>)
    ensures Substituted(a + b, vars) == Substituted(a, vars) + Substituted(b, vars)
  {
    if a != [] {
      assert (a + b)[1..] == a[1..] + b;
      SubstitutedAppend(a[1..], b, vars);
    } else {
      assert a + b == b;
    }
  }
}
