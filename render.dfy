/**
 * The compact textual form of the three state operators, as they appear in a
 * printed program: `b:i32[] <- a[]`, `a[:,0] <- b`, `c:i32[1], a[:,0] <- a[:,0], b`
 * and `a[] += 2`. Variables are named by letters in order (a..z, ba, bb, ...),
 * shapes and indices are comma-separated with no spaces, and a full slice is `:`.
 */
module Render {
  import opened Wrappers
  import opened Shapes
  import opened Indexing
  import opened Program

  predicate IsLetter(c: char)
  {
    'a' <= c <= 'z'
  }

  predicate IsDigit(c: char)
  {
    '0' <= c <= '9'
  }

  function Letter(d: nat): (c: char)
    requires d < 26
    ensures IsLetter(c) && c as int - 'a' as int == d
  {
    ('a' as int + d) as char
  }

  function Digit(d: nat): (c: char)
    requires d < 10
    ensures IsDigit(c) && c as int - '0' as int == d
  {
    ('0' as int + d) as char
  }

  /* ---------------------------------------------------------------- */
  /* Names and numbers                                                 */

  /** Variable `n` in base 26 with digits `a`..`z`, most significant first: 0 is `a`, 25 is `z`, 26 is `ba`. */
  function VarName(n: nat): (s: string)
    ensures |s| > 0 && forall k :: 0 <= k < |s| ==> IsLetter(s[k])
    ensures |s| > 1 ==> s[0] != 'a'
  {
    if n < 26 then [Letter(n)] else VarName(n / 26) + [Letter(n % 26)]
  }

  /** Reads a base-26 letter string back. */
  function ParseVarName(s: string): nat
    requires forall k :: 0 <= k < |s| ==> IsLetter(s[k])
  {
    if s == [] then 0
    else
      assert IsLetter(s[|s| - 1]);
      ParseVarName(s[..|s| - 1]) * 26 + (s[|s| - 1] as int - 'a' as int) as nat
  }

  lemma {:induction false} VarNameRoundTrip(n: nat)
    ensures ParseVarName(VarName(n)) == n
  {
    var s := VarName(n);
    if n >= 26 {
      VarNameRoundTrip(n / 26);
      assert s[..|s| - 1] == VarName(n / 26);
    } else {
      assert s[..|s| - 1] == [];
    }
  }

  /** Distinct variables get distinct names. */
  lemma VarNameInjective(m: nat, n: nat)
    ensures VarName(m) == VarName(n) ==> m == n
  {
    VarNameRoundTrip(m);
    VarNameRoundTrip(n);
  }

  /** Decimal digits of `n`, no leading zeros. */
  function NatToString(n: nat): (s: string)
    ensures |s| > 0 && forall k :: 0 <= k < |s| ==> IsDigit(s[k])
    ensures |s| > 1 ==> s[0] != '0'
  {
    if n < 10 then [Digit(n)] else NatToString(n / 10) + [Digit(n % 10)]
  }

  function ParseNat(s: string): nat
    requires forall k :: 0 <= k < |s| ==> IsDigit(s[k])
  {
    if s == [] then 0
    else
      assert IsDigit(s[|s| - 1]);
      ParseNat(s[..|s| - 1]) * 10 + (s[|s| - 1] as int - '0' as int) as nat
  }

  lemma {:induction false} NatRoundTrip(n: nat)
    ensures ParseNat(NatToString(n)) == n
  {
    var s := NatToString(n);
    if n >= 10 {
      NatRoundTrip(n / 10);
      assert s[..|s| - 1] == NatToString(n / 10);
    } else {
      assert s[..|s| - 1] == [];
    }
  }

  /** An integer literal, with a leading `-` when negative. */
  function IntToString(i: int): (s: string)
    ensures |s| > 0 && (s[0] == '-' || IsDigit(s[0])) && forall k :: 1 <= k < |s| ==> IsDigit(s[k])
  {
    if i < 0 then "-" + NatToString(-i) else NatToString(i)
  }

  function ParseInt(s: string): int
    requires |s| > 0 && (s[0] == '-' || IsDigit(s[0])) && forall k :: 1 <= k < |s| ==> IsDigit(s[k])
  {
    if s[0] == '-' then -(ParseNat(s[1..]) as int) else ParseNat(s)
  }

  lemma IntRoundTrip(i: int)
    ensures ParseInt(IntToString(i)) == i
  {
    if i < 0 {
      NatRoundTrip(-i);
      assert IntToString(i)[1..] == NatToString(-i);
    } else {
      NatRoundTrip(i);
    }
  }

  /* ---------------------------------------------------------------- */
  /* Comma-separated lists                                             */

  /** The parts separated by `sep`, with nothing around the separators. */
  function Join(parts: seq<string>, sep: char): string
  {
    if parts == [] then ""
    else if |parts| == 1 then parts[0]
    else parts[0] + [sep] + Join(parts[1..], sep)
  }

  /** Cuts a string at every `sep`. */
  function Split(s: string, sep: char): (r: seq<string>)
    ensures |r| > 0
  {
    if s == [] then [""]
    else
      var rest := Split(s[1..], sep);
      if s[0] == sep then [""] + rest else [[s[0]] + rest[0]] + rest[1..]
  }

  /** A string without `sep` is one piece. */
  lemma {:induction false} SplitNone(s: string, sep: char)
    requires forall k :: 0 <= k < |s| ==> s[k] != sep
    ensures Split(s, sep) == [s]
  {
    if s != [] {
      SplitNone(s[1..], sep);
      assert [s[0]] + s[1..] == s;
    }
  }

  /** Cutting `a`, a separator, then `b`, where `a` has no separator. */
  lemma {:induction false} SplitAt(a: string, b: string, sep: char)
    requires forall k :: 0 <= k < |a| ==> a[k] != sep
    ensures Split(a + [sep] + b, sep) == [a] + Split(b, sep)
    decreases |a|
  {
    if a == [] {
      assert a + [sep] + b == [sep] + b;
      assert ([sep] + b)[1..] == b;
    } else {
      var s := a + [sep] + b;
      assert s[0] == a[0] && s[1..] == a[1..] + [sep] + b;
      SplitAt(a[1..], b, sep);
      assert [a[0]] + a[1..] == a;
    }
  }

  /** Joining with a separator that no part contains is undone by cutting at it. */
  lemma {:induction false} SplitJoin(parts: seq<string>, sep: char)
    requires |parts| > 0
    requires forall i, k :: 0 <= i < |parts| && 0 <= k < |parts[i]| ==> parts[i][k] != sep
    ensures Split(Join(parts, sep), sep) == parts
  {
    if |parts| == 1 {
      SplitNone(parts[0], sep);
    } else {
      SplitJoin(parts[1..], sep);
      SplitAt(parts[0], Join(parts[1..], sep), sep);
      assert [parts[0]] + parts[1..] == parts;
    }
  }

  /** Every character of the joined string is a character of some part, or the separator. */
  lemma {:induction false} JoinChars(parts: seq<string>, sep: char, P: char -> bool)
    requires P(sep) && forall i, k :: 0 <= i < |parts| && 0 <= k < |parts[i]| ==> P(parts[i][k])
    ensures forall k :: 0 <= k < |Join(parts, sep)| ==> P(Join(parts, sep)[k])
  {
    if |parts| > 1 {
      JoinChars(parts[1..], sep, P);
      var j := Join(parts[1..], sep);
      forall k | 0 <= k < |parts[0] + [sep] + j| ensures P((parts[0] + [sep] + j)[k]) {
        if k > |parts[0]| {
          assert (parts[0] + [sep] + j)[k] == j[k - |parts[0]| - 1];
        }
      }
    }
  }

  /* ---------------------------------------------------------------- */
  /* Operators                                                         */

  function DTypeName(t: DType): string
  {
    match t
    case Int32 => "i32"
    case Int64 => "i64"
    case Float32 => "f32"
    case Float64 => "f64"
    case Bool => "bool"
  }

  /** `i32[1,2]`: the element kind, then the dimensions. */
  function RenderAval(a: Aval): string
  {
    DTypeName(a.dtype) + "[" + Join(seq(|a.shape|, d requires 0 <= d < |a.shape| => NatToString(a.shape[d])), ',') + "]"
  }

  function RenderAtom(a: Atom): string
  {
    match a
    case Var(n) => VarName(n)
    case Lit(v, _) => IntToString(v)
  }

  function RenderEntry(e: Entry<Atom>): string
  {
    match e
    case Full => ":"
    case Idx(a) => RenderAtom(a)
  }

  function EntryStrings(idx: seq<Entry<Atom>>): (r: seq<string>)
    ensures |r| == |idx| && forall k :: 0 <= k < |idx| ==> r[k] == RenderEntry(idx[k])
  {
    seq(|idx|, k requires 0 <= k < |idx| => RenderEntry(idx[k]))
  }

  /** `[:,0]`; the empty index is `[]`. */
  function RenderIndex(idx: seq<Entry<Atom>>): string
  {
    "[" + Join(EntryStrings(idx), ',') + "]"
  }

  /** `a[:,0]`: the reference, then the index. */
  function RefSlice(r: nat, idx: seq<Entry<Atom>>): string
  {
    VarName(r) + RenderIndex(idx)
  }

  /** `b:i32[1]`: a bound variable with its abstract value. */
  function Decl(v: nat, avals: map<nat, Aval>): string
    requires v in avals
  {
    VarName(v) + ":" + RenderAval(avals[v])
  }

  /** The one-line form of a state operator; `avals` gives the abstract value of every variable. */
  function RenderStateEqn(e: Eqn, avals: map<nat, Aval>): string
    requires e.Get? || e.Swap? || e.AddUpdate?
    requires e.Get? ==> e.out in avals
    requires e.Swap? && e.dst.Some? ==> e.dst.value in avals
  {
    match e
    case Get(o, r, idx) => Decl(o, avals) + " <- " + RefSlice(r, idx)
    case Swap(dst, r, idx, v) =>
      if dst.None? then RefSlice(r, idx) + " <- " + RenderAtom(v)
      else Decl(dst.value, avals) + ", " + RefSlice(r, idx) + " <- " + RefSlice(r, idx) + ", " + RenderAtom(v)
    case AddUpdate(r, idx, v) => RefSlice(r, idx) + " += " + RenderAtom(v)
  }

  /* ---------------------------------------------------------------- */
  /* Laws of the index form                                            */

  predicate NoCommaOrSpace(c: char)
  {
    c != ',' && c != ' '
  }

  lemma EntryChars(e: Entry<Atom>)
    ensures |RenderEntry(e)| > 0 && forall k :: 0 <= k < |RenderEntry(e)| ==> NoCommaOrSpace(RenderEntry(e)[k])
  {
    match e
    case Full =>
    case Idx(a) =>
      match a
      case Var(n) =>
      case Lit(v, _) =>
  }

  /**
   * The index form is bracketed, has no spaces, and cutting what is between
   * the brackets at the commas gives back one piece per entry, each the
   * form of that entry; the empty index is `[]`.
   */
  lemma IndexLayout(idx: seq<Entry<Atom>>)
    ensures var s := RenderIndex(idx);
            |s| >= 2 && s[0] == '[' && s[|s| - 1] == ']' && (forall k :: 0 <= k < |s| ==> s[k] != ' ') &&
            (idx == [] <==> s == "[]") &&
            (idx != [] ==> Split(s[1..|s| - 1], ',') == EntryStrings(idx))
  {
    var parts := EntryStrings(idx);
    forall i | 0 <= i < |parts| ensures |parts[i]| > 0 && forall k :: 0 <= k < |parts[i]| ==> NoCommaOrSpace(parts[i][k]) {
      EntryChars(idx[i]);
    }
    var inner := Join(parts, ',');
    JoinChars(parts, ',', c => c != ' ');
    var s := RenderIndex(idx);
    assert s[1..|s| - 1] == inner;
    if idx != [] {
      SplitJoin(parts, ',');
      JoinLength(parts, ',');
    }
  }

  predicate NoSpace(s: string)
  {
    forall k :: 0 <= k < |s| ==> s[k] != ' '
  }

  /** The words of the compact form of `e`: what cutting it at spaces gives. */
  function StateEqnWords(e: Eqn, avals: map<nat, Aval>): seq<string>
    requires e.Get? || e.Swap? || e.AddUpdate?
    requires e.Get? ==> e.out in avals
    requires e.Swap? && e.dst.Some? ==> e.dst.value in avals
  {
    match e
    case Get(o, r, idx) => [Decl(o, avals), "<-", RefSlice(r, idx)]
    case Swap(dst, r, idx, v) =>
      if dst.None? then [RefSlice(r, idx), "<-", RenderAtom(v)]
      else [Decl(dst.value, avals) + ",", RefSlice(r, idx), "<-", RefSlice(r, idx) + ",", RenderAtom(v)]
    case AddUpdate(r, idx, v) => [RefSlice(r, idx), "+=", RenderAtom(v)]
  }

  /**
   * The compact form of a state operator is a line of words separated by
   * single spaces, none of which contains a space: cutting it at its spaces
   * gives back the declaration of the result (for a `get` and a `swap` whose
   * old value is kept), the reference slice, the operator arrow (`<-` for a
   * read or write, `+=` for an accumulation) and the operand.
   */
  lemma RenderStateEqnWords(e: Eqn, avals: map<nat, Aval>)
    requires e.Get? || e.Swap? || e.AddUpdate?
    requires e.Get? ==> e.out in avals
    requires e.Swap? && e.dst.Some? ==> e.dst.value in avals
    ensures Split(RenderStateEqn(e, avals), ' ') == StateEqnWords(e, avals)
    ensures (e.Get? || e.Swap?) <==> "<-" in StateEqnWords(e, avals)
    ensures e.AddUpdate? <==> "+=" in StateEqnWords(e, avals)
  {
    match e
    case Get(o, r, idx) => GetWords(o, r, idx, avals);
    case Swap(dst, r, idx, v) => SwapWords(dst, r, idx, v, avals);
    case AddUpdate(r, idx, v) => AddUpdateWords(r, idx, v, avals);
  }

  lemma GetWords(o: nat, r: nat, idx: seq<Entry<Atom>>, avals: map<nat, Aval>)
    requires o in avals
    ensures var e := Get(o, r, idx);
            Split(RenderStateEqn(e, avals), ' ') == StateEqnWords(e, avals) &&
            "<-" in StateEqnWords(e, avals) && "+=" !in StateEqnWords(e, avals)
  {
    var e := Get(o, r, idx);
    DeclWord(o, avals);
    RefSliceWord(r, idx);
    assert RenderStateEqn(e, avals) == Decl(o, avals) + " " + "<-" + " " + RefSlice(r, idx);
    Words3(Decl(o, avals), "<-", RefSlice(r, idx));
    assert StateEqnWords(e, avals)[1] == "<-";
  }

  lemma SwapWords(dst: Option<nat>, r: nat, idx: seq<Entry<Atom>>, v: Atom, avals: map<nat, Aval>)
    requires dst.Some? ==> dst.value in avals
    ensures var e := Swap(dst, r, idx, v);
            Split(RenderStateEqn(e, avals), ' ') == StateEqnWords(e, avals) &&
            "<-" in StateEqnWords(e, avals) && "+=" !in StateEqnWords(e, avals)
  {
    if dst.None? {
      SetWords(r, idx, v, avals);
    } else {
      SwapKeepWords(dst.value, r, idx, v, avals);
    }
  }

  lemma SetWords(r: nat, idx: seq<Entry<Atom>>, v: Atom, avals: map<nat, Aval>)
    ensures var e := Swap(None, r, idx, v);
            Split(RenderStateEqn(e, avals), ' ') == StateEqnWords(e, avals) &&
            "<-" in StateEqnWords(e, avals) && "+=" !in StateEqnWords(e, avals)
  {
    var e := Swap(None, r, idx, v);
    RefSliceWord(r, idx);
    AtomWord(v);
    assert RenderStateEqn(e, avals) == RefSlice(r, idx) + " " + "<-" + " " + RenderAtom(v);
    Words3(RefSlice(r, idx), "<-", RenderAtom(v));
    assert StateEqnWords(e, avals)[1] == "<-";
  }

  lemma SwapKeepWords(o: nat, r: nat, idx: seq<Entry<Atom>>, v: Atom, avals: map<nat, Aval>)
    requires o in avals
    ensures var e := Swap(Some(o), r, idx, v);
            Split(RenderStateEqn(e, avals), ' ') == StateEqnWords(e, avals) &&
            "<-" in StateEqnWords(e, avals) && "+=" !in StateEqnWords(e, avals)
  {
    var e := Swap(Some(o), r, idx, v);
    RefSliceWord(r, idx);
    AtomWord(v);
    DeclWord(o, avals);
    var d, rs, a := Decl(o, avals), RefSlice(r, idx), RenderAtom(v);
    SwapKeepText(d, rs, a);
    assert StateEqnWords(e, avals) == [d + ",", rs, "<-", rs + ",", a];
    assert StateEqnWords(e, avals)[2] == "<-";
  }

  lemma SwapKeepText(d: string, rs: string, a: string)
    requires NoSpace(d + ",") && NoSpace(rs) && NoSpace(rs + ",") && NoSpace(a)
    ensures Split(d + ", " + rs + " <- " + rs + ", " + a, ' ') == [d + ",", rs, "<-", rs + ",", a]
  {
    var s0 := d + ",";
    var s1 := s0 + " " + rs;
    var s2 := s1 + " " + "<-";
    var s3 := s2 + " " + (rs + ",");
    var s4 := s3 + " " + a;
    SplitNone(s0, ' ');
    SplitSnoc(s0, rs);
    SplitSnoc(s1, "<-");
    SplitSnoc(s2, rs + ",");
    SplitSnoc(s3, a);
    SwapKeepAssoc(d, rs, a);
  }

  /** The compact form of a kept-value `swap`, regrouped one word at a time. */
  lemma SwapKeepAssoc(d: string, rs: string, a: string)
    ensures d + ", " + rs + " <- " + rs + ", " + a ==
            (d + ",") + " " + rs + " " + "<-" + " " + (rs + ",") + " " + a
  {
    var s1 := (d + ",") + " " + rs;
    var s2 := s1 + " " + "<-";
    var s3 := s2 + " " + (rs + ",");
    assert d + ", " + rs == s1;
    assert d + ", " + rs + " <- " + rs == s2 + " " + rs;
    assert d + ", " + rs + " <- " + rs + ", " == s3 + " ";
  }

  /** Cutting `x`, a space, then a word without spaces. */
  lemma {:induction false} SplitSnoc(x: string, w: string)
    requires NoSpace(w)
    ensures Split(x + " " + w, ' ') == Split(x, ' ') + [w]
    decreases |x|
  {
    if x == [] {
      assert x + " " + w == [' '] + w;
      assert ([' '] + w)[1..] == w;
      SplitNone(w, ' ');
    } else {
      var s := x + " " + w;
      assert s[0] == x[0] && s[1..] == x[1..] + " " + w;
      SplitSnoc(x[1..], w);
    }
  }

  lemma AddUpdateWords(r: nat, idx: seq<Entry<Atom>>, v: Atom, avals: map<nat, Aval>)
    ensures var e := AddUpdate(r, idx, v);
            Split(RenderStateEqn(e, avals), ' ') == StateEqnWords(e, avals) &&
            "+=" in StateEqnWords(e, avals) && "<-" !in StateEqnWords(e, avals)
  {
    var e := AddUpdate(r, idx, v);
    RefSliceWord(r, idx);
    AtomWord(v);
    assert RenderStateEqn(e, avals) == RefSlice(r, idx) + " " + "+=" + " " + RenderAtom(v);
    Words3(RefSlice(r, idx), "+=", RenderAtom(v));
    assert StateEqnWords(e, avals)[1] == "+=";
  }

  lemma Words3(a: string, b: string, c: string)
    requires NoSpace(a) && NoSpace(b) && NoSpace(c)
    ensures Split(a + " " + b + " " + c, ' ') == [a, b, c]
  {
    assert a + " " + b + " " + c == a + [' '] + (b + [' '] + c);
    SplitAt(a, b + [' '] + c, ' ');
    SplitAt(b, c, ' ');
    SplitNone(c, ' ');
  }

  /** A declaration `b:i32[1]` has no space and starts with a letter, so it is not an arrow. */
  lemma DeclWord(v: nat, avals: map<nat, Aval>)
    requires v in avals
    ensures NoSpace(Decl(v, avals)) && NoSpace(Decl(v, avals) + ",")
    ensures Decl(v, avals) != "<-" && Decl(v, avals) != "+="
  {
    var a := avals[v];
    var dims := seq(|a.shape|, d requires 0 <= d < |a.shape| => NatToString(a.shape[d]));
    JoinChars(dims, ',', c => c != ' ');
    match a.dtype
    case Int32 =>
    case Int64 =>
    case Float32 =>
    case Float64 =>
    case Bool =>
  }

  /** A reference slice `a[:,0]` has no space and starts with a letter, so it is not an arrow. */
  lemma RefSliceWord(r: nat, idx: seq<Entry<Atom>>)
    ensures NoSpace(RefSlice(r, idx)) && NoSpace(RefSlice(r, idx) + ",")
    ensures RefSlice(r, idx) != "<-" && RefSlice(r, idx) != "+="
  {
    IndexLayout(idx);
    assert RefSlice(r, idx)[0] == VarName(r)[0];
  }

  /** An operand is a name or an integer literal; neither contains a space, and neither is an arrow. */
  lemma AtomWord(a: Atom)
    ensures NoSpace(RenderAtom(a)) && RenderAtom(a) != "<-" && RenderAtom(a) != "+="
  {
  }

  lemma {:induction false} JoinLength(parts: seq<string>, sep: char)
    requires |parts| > 0 && |parts[0]| > 0
    ensures |Join(parts, sep)| > 0
  {
  }
}
