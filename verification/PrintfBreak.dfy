/** The pass that breaks a call of printf into calls with at most four word arguments,
    or with one double alone. */
module PrintfBreak {
  import opened Basics

  datatype Ty = WordArg | DoubleArg
  datatype Arg = Arg(ty: Ty, bits: int)

  // ---- format strings ----

  // A character, an escaped percent sign, or the first two characters of a conversion.
  datatype Tok = Ch(c: char) | Esc | Conv(c: char)

  function Untok1(t: Tok): string {
    match t case Ch(c) => [c] case Esc => "%%" case Conv(c) => ['%', c]
  }

  function Untok(ts: seq<Tok>): string {
    if ts == [] then "" else Untok(ts[..|ts| - 1]) + Untok1(ts[|ts| - 1])
  }

  predicate Fine(t: Tok) {
    !t.Esc? ==> t.c != '%'
  }

  /** The tokens of a format string; None when it ends in a lone percent sign. */
  function Tokenize(s: string): Option<seq<Tok>> {
    if s == "" then Some([])
    else if s[0] != '%' then Prepend(Ch(s[0]), Tokenize(s[1..]))
    else if |s| == 1 then None
    else Prepend(if s[1] == '%' then Esc else Conv(s[1]), Tokenize(s[2..]))
  }

  function Prepend(t: Tok, r: Option<seq<Tok>>): Option<seq<Tok>> {
    if r.None? then None else Some([t] + r.value)
  }

  lemma {:induction false} UntokCons(t: Tok, ts: seq<Tok>)
    ensures Untok([t] + ts) == Untok1(t) + Untok(ts)
    decreases |ts|
  {
    var all := [t] + ts;
    if ts == [] {
      assert all[..0] == [];
    } else {
      assert all[..|all| - 1] == [t] + ts[..|ts| - 1];
      UntokCons(t, ts[..|ts| - 1]);
      assert Untok(all) == (Untok1(t) + Untok(ts[..|ts| - 1])) + Untok1(ts[|ts| - 1]);
    }
  }

  lemma {:induction false} UntokAppend(a: seq<Tok>, b: seq<Tok>)
    ensures Untok(a + b) == Untok(a) + Untok(b)
    decreases |b|
  {
    hide Untok1;
    if b == [] {
      assert a + b == a;
    } else {
      var n := |b| - 1;
      assert (a + b)[..|a + b| - 1] == a + b[..n];
      UntokAppend(a, b[..n]);
    }
  }

  /** The tokens make up the string, and they are the only ones that do. */
  lemma {:induction false} TokenizeExact(s: string)
    ensures Tokenize(s).Some? ==> Untok(Tokenize(s).value) == s && forall t :: t in Tokenize(s).value ==> Fine(t)
    decreases |s|
  {
    hide Untok;
    if s == "" {
      Zero();
    } else if Tokenize(s).Some? {
      var t := Tokenize(s).value[0];
      var rest := if s[0] != '%' then s[1..] else s[2..];
      TokenizeExact(rest);
      TokenizeStep(s);
      UntokCons(t, Tokenize(rest).value);
    }
  }

  lemma TokenizeStep(s: string)
    requires s != "" && Tokenize(s).Some?
    ensures var t := Tokenize(s).value[0];
            var rest := if s[0] != '%' then s[1..] else s[2..];
            s == Untok1(t) + rest && Fine(t) && Tokenize(rest).Some? && Tokenize(s).value == [t] + Tokenize(rest).value
  {
  }

  lemma {:induction false} TokenizeUntok(ts: seq<Tok>)
    requires forall t :: t in ts ==> Fine(t)
    ensures Tokenize(Untok(ts)) == Some(ts)
  {
    if ts != [] {
      assert ts == [ts[0]] + ts[1..];
      UntokCons(ts[0], ts[1..]);
      TokenizeUntok(ts[1..]);
      var s := Untok(ts);
      assert s == Untok1(ts[0]) + Untok(ts[1..]);
      assert ts[0] in ts && Fine(ts[0]);
      assert s[|Untok1(ts[0])|..] == Untok(ts[1..]);
    }
  }

  function Convs(ts: seq<Tok>): nat {
    if ts == [] then 0 else Convs(ts[..|ts| - 1]) + if ts[|ts| - 1].Conv? then 1 else 0
  }

  lemma {:induction false} ConvsAppend(a: seq<Tok>, b: seq<Tok>)
    ensures Convs(a + b) == Convs(a) + Convs(b)
    decreases |b|
  {
    if b == [] {
      assert a + b == a;
    } else {
      assert (a + b)[..|a + b| - 1] == a + b[..|b| - 1];
      ConvsAppend(a, b[..|b| - 1]);
    }
  }

  /** The string has as many conversions as arguments. */
  ghost predicate Fits(fmt: string, n: nat) {
    Tokenize(fmt).Some? && Convs(Tokenize(fmt).value) == n
  }

  // ---- what a call prints ----

  /** How the text before the first conversion is printed, and how a conversion with
      the text up to the next one is, given its argument. */
  type Plain = string -> string
  type Render = (string, Arg) -> string

  function ToConv(ts: seq<Tok>): (k: nat)
    ensures k <= |ts| && (k < |ts| ==> ts[k].Conv?) && forall j :: 0 <= j < k ==> !ts[j].Conv?
  {
    if ts == [] || ts[0].Conv? then 0 else 1 + ToConv(ts[1..])
  }

  // The text of tokens that start with a conversion.
  function ConvText(r: Render, ts: seq<Tok>, args: seq<Arg>): string
    decreases |ts|
  {
    if ts == [] || args == [] then ""
    else
      var m := 1 + ToConv(ts[1..]);
      r(Untok(ts[..m]), args[0]) + ConvText(r, ts[m..], args[1..])
  }

  function Text(p: Plain, r: Render, ts: seq<Tok>, args: seq<Arg>): string {
    var k := ToConv(ts);
    p(Untok(ts[..k])) + ConvText(r, ts[k..], args)
  }

  /** The text of one call of printf. */
  function Prints(p: Plain, r: Render, fmt: string, args: seq<Arg>): string {
    if Tokenize(fmt).None? then "" else Text(p, r, Tokenize(fmt).value, args)
  }

  lemma {:induction false} NoConvs(ts: seq<Tok>)
    requires forall j :: 0 <= j < |ts| ==> !ts[j].Conv?
    ensures Convs(ts) == 0
  {
    if ts != [] { NoConvs(ts[..|ts| - 1]); }
  }

  lemma ConvsHead(ts: seq<Tok>)
    requires ts != [] && ts[0].Conv?
    ensures var m := 1 + ToConv(ts[1..]); Convs(ts[..m]) == 1 && Convs(ts) == 1 + Convs(ts[m..])
  {
    hide Convs;
    var m := 1 + ToConv(ts[1..]);
    forall j | 0 <= j < m - 1 ensures !ts[1..m][j].Conv? {
      assert !ts[1..][j].Conv?;
    }
    NoConvs(ts[1..m]);
    ConvsNext(ts, 0);
    Slices(ts, 0, m);
    Slices(ts, 1, m);
    ConvsAppend(ts[..1], ts[1..m]);
    ConvsAppend(ts[..m], ts[m..]);
    assert ts[..0] == [] && ts[0..] == ts && ts[0..m] == ts[..m];
    Zero();
  }

  lemma ConvStep(r: Render, ts: seq<Tok>, args: seq<Arg>, m: nat)
    requires ts != [] && args != [] && m == 1 + ToConv(ts[1..])
    ensures ConvText(r, ts, args) == r(Untok(ts[..m]), args[0]) + ConvText(r, ts[m..], args[1..])
  {
  }

  lemma NextConv(ts: seq<Tok>, c: nat, m: nat)
    requires 0 < c < |ts| && ts[c].Conv? && m == 1 + ToConv(ts[1..])
    ensures m <= c && ts[m].Conv?
  {
    assert ts[1..][c - 1].Conv?;
  }

  // Tokens that start with a conversion, cut before another one.
  lemma {:induction false} ConvTextCut(r: Render, ts: seq<Tok>, c: nat, args: seq<Arg>)
    requires c < |ts| && ts[0].Conv? && ts[c].Conv? && Convs(ts) == |args|
    ensures Convs(ts[..c]) <= |args|
    ensures var n := Convs(ts[..c]);
            ConvText(r, ts, args) == ConvText(r, ts[..c], args[..n]) + ConvText(r, ts[c..], args[n..])
    decreases |ts|
  {
    hide Untok, ToConv, Convs, ConvText;
    if c > 0 {
      var m := 1 + ToConv(ts[1..]);
      NextConv(ts, c, m);
      ConvsHead(ts);
      ConvStep(r, ts, args, m);
      var u, v := ts[..c], ts[m..];
      HeadOfPrefix(ts, c);
      ConvsHead(u);
      assert v[..c - m] == u[m..] && v[c - m..] == ts[c..] && u[..m] == ts[..m];
      ConvTextCut(r, v, c - m, args[1..]);
      var n := Convs(u);
      ConvStep(r, u, args[..n], m);
      assert args[..n][1..] == args[1..][..n - 1] && args[1..][n - 1..] == args[n..];
      Assoc(r(Untok(ts[..m]), args[0]), ConvText(r, u[m..], args[1..][..n - 1]), ConvText(r, ts[c..], args[n..]));
    } else {
      EmptyCut(r, ts, args);
    }
  }

  lemma Assoc(a: string, b: string, c: string)
    ensures a + (b + c) == (a + b) + c
  {
  }

  lemma Glue(a: string, b: string, e: string, c: string)
    requires e == ""
    ensures a + (b + c) == (a + b) + (e + c)
  {
  }

  lemma EmptyCut(r: Render, ts: seq<Tok>, args: seq<Arg>)
    ensures Convs(ts[..0]) == 0
    ensures ConvText(r, ts, args) == ConvText(r, ts[..0], args[..0]) + ConvText(r, ts[0..], args[0..])
  {
    assert ts[0..] == ts && args[0..] == args;
  }

  lemma HeadOfPrefix(ts: seq<Tok>, c: nat)
    requires 0 < c < |ts| && 1 + ToConv(ts[1..]) <= c
    ensures ToConv(ts[..c][1..]) == ToConv(ts[1..])
  {
    ToConvIs(ts[..c][1..], ToConv(ts[1..]));
  }

  lemma {:induction false} ToConvIs(ts: seq<Tok>, k: nat)
    requires k <= |ts| && (k < |ts| ==> ts[k].Conv?) && forall j :: 0 <= j < k ==> !ts[j].Conv?
    ensures ToConv(ts) == k
  {
  }

  lemma ToConvOfPrefix(ts: seq<Tok>, c: nat)
    requires c < |ts| && ts[c].Conv?
    ensures ToConv(ts) <= c && ToConv(ts[..c]) == ToConv(ts)
    ensures ToConv(ts[c..]) == 0
  {
    ToConvIs(ts[..c], ToConv(ts));
    ToConvIs(ts[c..], 0);
  }

  lemma ConvsFrom(ts: seq<Tok>, k: nat)
    requires k == ToConv(ts)
    ensures Convs(ts) == Convs(ts[k..])
  {
    NoConvs(ts[..k]);
    ConvsAppend(ts[..k], ts[k..]);
    assert ts == ts[..k] + ts[k..];
  }

  lemma TextIs(p: Plain, r: Render, ts: seq<Tok>, args: seq<Arg>, k: nat)
    requires k == ToConv(ts)
    ensures Text(p, r, ts, args) == p(Untok(ts[..k])) + ConvText(r, ts[k..], args)
  {
  }

  /** A format cut before a conversion, with the arguments cut alike, prints the same. */
  lemma TextCut(p: Plain, r: Render, ts: seq<Tok>, c: nat, args: seq<Arg>)
    requires p("") == "" && c < |ts| && ts[c].Conv? && Convs(ts) == |args|
    ensures Convs(ts[..c]) <= |args|
    ensures var n := Convs(ts[..c]);
            Text(p, r, ts, args) == Text(p, r, ts[..c], args[..n]) + Text(p, r, ts[c..], args[n..])
  {
    hide Untok, ToConv, Convs, ConvText, Text;
    Zero();
    var k := ToConv(ts);
    ToConvOfPrefix(ts, c);
    ConvsFrom(ts, k);
    ConvsFrom(ts[..c], k);
    var u, v, w := ts[..c], ts[k..], ts[c..];
    assert v[0] == ts[k] && v[c - k] == ts[c] && v[..c - k] == u[k..] && v[c - k..] == w && u[..k] == ts[..k];
    ConvTextCut(r, v, c - k, args);
    var n := Convs(u);
    TextIs(p, r, ts, args, k);
    TextIs(p, r, u, args[..n], k);
    TextIs(p, r, w, args[n..], 0);
    assert w[..0] == [] && w[0..] == w;
    Glue(p(Untok(ts[..k])), ConvText(r, u[k..], args[..n]), p(Untok(w[..0])), ConvText(r, w, args[n..]));
  }

  // ---- the pieces ----

  datatype PCall = PCall(fmt: string, args: int, isDouble: bool)
  datatype Call = Call(fmt: string, args: seq<Arg>, isDouble: bool)

  // Where token `t` stands in the string.
  lemma TokAt(ts: seq<Tok>, t: nat)
    requires t < |ts|
    ensures var s, pos, u := Untok(ts), |Untok(ts[..t])|, Untok1(ts[t]);
            && pos + |u| <= |s| && s[pos..pos + |u|] == u && |Untok(ts[..t + 1])| == pos + |u|
            && s[..pos] == Untok(ts[..t]) && s[pos..] == Untok(ts[t..])
  {
    hide Untok, Untok1;
    var a, u, b := Untok(ts[..t]), Untok1(ts[t]), Untok(ts[t + 1..]);
    UntokNext(ts, t);
    UntokAppend(ts[..t + 1], ts[t + 1..]);
    assert ts == ts[..t + 1] + ts[t + 1..];
    UntokAppend(ts[..t], ts[t..]);
    assert ts == ts[..t] + ts[t..];
    assert Untok(ts) == (a + u) + b;
  }

  lemma UntokNext(ts: seq<Tok>, t: nat)
    requires t < |ts|
    ensures Untok(ts[..t + 1]) == Untok(ts[..t]) + Untok1(ts[t])
  {
    assert ts[..t + 1][..t] == ts[..t];
  }

  /** A piece with its arguments: at most four words, or one double. */
  predicate PieceOk(pc: PCall, types: seq<Ty>) {
    && pc.args == |types| <= 4
    && if pc.isDouble then types == [DoubleArg] else forall k :: 0 <= k < |types| ==> types[k].WordArg?
  }

  ghost function Off(ts: seq<Tok>, c: nat): nat
    requires c <= |ts|
  {
    Convs(ts[..c])
  }

  /** Piece `k` is the tokens from its cut to the next, with the arguments of their
      conversions. */
  ghost predicate PieceAt(pcs: seq<PCall>, cuts: seq<nat>, ts: seq<Tok>, types: seq<Ty>, k: int) {
    && 0 <= k && k + 1 < |cuts| && k < |pcs| && cuts[k] < cuts[k + 1] <= |ts|
    && Off(ts, cuts[k]) <= Off(ts, cuts[k + 1]) <= |types|
    && pcs[k].fmt == Untok(ts[cuts[k]..cuts[k + 1]])
    && Convs(ts[cuts[k]..cuts[k + 1]]) == pcs[k].args
    && PieceOk(pcs[k], types[Off(ts, cuts[k])..Off(ts, cuts[k + 1])])
  }

  /** The pieces so far: all but the last are final, and each starts at a conversion. */
  ghost predicate Cut(pcs: seq<PCall>, cuts: seq<nat>, ts: seq<Tok>, types: seq<Ty>) {
    && |pcs| == |cuts| > 0 && cuts[0] == 0
    && (forall k :: 0 < k < |cuts| ==> cuts[k] < |ts| && ts[cuts[k]].Conv?)
    && (forall k :: 0 <= k < |pcs| - 1 ==> PieceAt(pcs, cuts, ts, types, k))
    && cuts[|pcs| - 1] <= |ts| && pcs[|pcs| - 1].fmt == Untok(ts[cuts[|pcs| - 1]..])
  }

  /** After `d` arguments: the last piece holds the rest, or is final too. */
  ghost predicate Progress(pcs: seq<PCall>, cuts: seq<nat>, ts: seq<Tok>, types: seq<Ty>, d: nat) {
    && Cut(pcs, cuts, ts, types) && d <= |types| && Convs(ts) == |types|
    && (var last := |pcs| - 1;
        if d < |types| then Off(ts, cuts[last]) == d && pcs[last].args == |types| - d && !pcs[last].isDouble
        else Off(ts, cuts[last]) <= d && PieceOk(pcs[last], types[Off(ts, cuts[last])..]))
  }

  // The last piece is cut at token `c`.
  lemma CutMore(pcs: seq<PCall>, cuts: seq<nat>, ts: seq<Tok>, types: seq<Ty>, d: nat, n: nat, c: nat, isDouble: bool)
    requires Progress(pcs, cuts, ts, types, d) && 0 < n && d + n < |types|
    requires PieceOk(PCall("", n, isDouble), types[d..d + n])
    requires var rest := ts[cuts[|cuts| - 1]..]; c < |rest| && rest[c].Conv? && Convs(rest[..c]) == n
    ensures var c0 := cuts[|cuts| - 1];
            Progress(pcs[..|pcs| - 1] + [PCall(Untok(ts[c0..][..c]), n, isDouble), PCall(Untok(ts[c0..][c..]), |types| - d - n, false)],
                     cuts + [c0 + c], ts, types, d + n)
  {
    hide PieceOk, Untok, Convs;
    var last, c0 := |pcs| - 1, cuts[|cuts| - 1];
    var rest := ts[c0..];
    var pcs', cuts' := pcs[..last] + [PCall(Untok(rest[..c]), n, isDouble), PCall(Untok(rest[c..]), |types| - d - n, false)], cuts + [c0 + c];
    ConvsAppend(ts[..c0], rest[..c]);
    assert ts[..c0 + c] == ts[..c0] + rest[..c];
    Zero();
    assert rest[..0] == [];
    assert ts[c0..c0 + c] == rest[..c] && ts[c0 + c..] == rest[c..];
    PieceFmt(PCall("", n, isDouble), Untok(rest[..c]), types[d..d + n]);
    forall k | 0 <= k < |pcs'| - 1 ensures PieceAt(pcs', cuts', ts, types, k) {
      if k < last { assert PieceAt(pcs, cuts, ts, types, k); }
    }
  }

  lemma PieceFmt(pc: PCall, fmt: string, types: seq<Ty>)
    requires PieceOk(pc, types)
    ensures PieceOk(pc.(fmt := fmt), types)
  {
  }

  // The last piece takes the remaining arguments.
  lemma CutLast(pcs: seq<PCall>, cuts: seq<nat>, ts: seq<Tok>, types: seq<Ty>, d: nat, n: nat, isDouble: bool)
    requires Progress(pcs, cuts, ts, types, d) && 0 < n && d + n == |types|
    requires PieceOk(PCall("", n, isDouble), types[d..])
    ensures var last := |pcs| - 1;
            Progress(pcs[last := if isDouble then pcs[last].(isDouble := true, args := n) else pcs[last]], cuts, ts, types, d + n)
  {
    var last := |pcs| - 1;
    var pcs' := pcs[last := if isDouble then pcs[last].(isDouble := true, args := n) else pcs[last]];
    forall k | 0 <= k < |pcs'| - 1 ensures PieceAt(pcs', cuts, ts, types, k) {
      assert PieceAt(pcs, cuts, ts, types, k);
    }
  }

  lemma LastPiece(pcs: seq<PCall>, cuts: seq<nat>, ts: seq<Tok>, types: seq<Ty>, d: nat)
    requires Progress(pcs, cuts, ts, types, d) && d < |types|
    ensures |pcs| == |cuts| > 0 && cuts[|pcs| - 1] <= |ts|
    ensures pcs[|pcs| - 1].fmt == Untok(ts[cuts[|pcs| - 1]..])
    ensures Convs(ts[cuts[|pcs| - 1]..]) == |types| - d
    ensures (forall x :: x in ts ==> Fine(x)) ==> forall x :: x in ts[cuts[|pcs| - 1]..] ==> Fine(x)
  {
    RestConvs(ts, cuts[|pcs| - 1]);
  }

  // The last piece cut at `pos`, where its token `t` stands.
  lemma SplitMore(pcs: seq<PCall>, cuts: seq<nat>, ts: seq<Tok>, types: seq<Ty>, d: nat, n: nat, pos: nat, t: nat, isDouble: bool)
    requires Progress(pcs, cuts, ts, types, d) && 0 < n && d + n <= |types| && |pcs| == |cuts| > 0 && cuts[|pcs| - 1] <= |ts|
    requires PieceOk(PCall("", n, isDouble), types[d..d + n])
    requires var rest := ts[cuts[|pcs| - 1]..];
             n < Convs(rest) && t < |rest| && rest[t].Conv? && Convs(rest[..t]) == n && pos == |Untok(rest[..t])|
    requires Convs(ts[cuts[|pcs| - 1]..]) == |types| - d
    ensures var pi, s := |pcs| - 1, pcs[|pcs| - 1].fmt;
            && pos <= |s|
            && Progress(pcs[..pi] + [PCall(s[..pos], n, isDouble)] + [PCall(s[pos..], |types| - d - n, false)],
                        cuts + [cuts[pi] + t], ts, types, d + n)
  {
    hide Untok, Convs, PieceOk, Off, PieceAt;
    var pi, s := |pcs| - 1, pcs[|pcs| - 1].fmt;
    var rest := ts[cuts[pi]..];
    TokAt(rest, t);
    CutMore(pcs, cuts, ts, types, d, n, t, isDouble);
    assert pcs[..pi] + [PCall(s[..pos], n, isDouble), PCall(s[pos..], |types| - d - n, false)]
           == pcs[..pi] + [PCall(s[..pos], n, isDouble)] + [PCall(s[pos..], |types| - d - n, false)];
  }

  lemma SplitLast(pcs: seq<PCall>, cuts: seq<nat>, ts: seq<Tok>, types: seq<Ty>, d: nat, n: nat, isDouble: bool)
    requires Progress(pcs, cuts, ts, types, d) && 0 < n && d + n == |types| && |pcs| > 0
    requires PieceOk(PCall("", n, isDouble), types[d..d + n])
    ensures Progress(if isDouble then pcs[|pcs| - 1 := pcs[|pcs| - 1].(isDouble := true, args := n)] else pcs, cuts, ts, types, d + n)
  {
    hide Untok, Convs, PieceOk, Progress;
    assert types[d..d + n] == types[d..];
    CutLast(pcs, cuts, ts, types, d, n, isDouble);
    assert pcs[|pcs| - 1 := pcs[|pcs| - 1]] == pcs;
  }

  /** A call is broken when it has more than four arguments or any double. */
  predicate Breaks(args: seq<Ty>) { |args| >= 5 || DoubleArg in args }

  class Breaker {
    var next: int
    var total: int
    var pcalls: seq<PCall>
    ghost var cuts: seq<nat>

    constructor ()
    {
      next, total, pcalls, cuts := 0, 0, [], [];
    }

    ghost predicate At(ts: seq<Tok>, types: seq<Ty>, d: nat)
      reads this
    {
      total == |types| && next == d + 1 && Progress(pcalls, cuts, ts, types, d)
    }

    /** The place of the n+1st conversion, or the end of the string. */
    method Advance(s: string, n: nat, ghost ts: seq<Tok>) returns (count: nat, pos: nat, ghost t: nat)
      requires s == Untok(ts) && (forall x :: x in ts ==> Fine(x)) && n <= Convs(ts)
      ensures t <= |ts| && pos == |Untok(ts[..t])|
      ensures count == if n < Convs(ts) then n + 1 else n
      ensures n < Convs(ts) ==> pos < |s| && t < |ts| && ts[t].Conv? && Convs(ts[..t]) == n
      ensures n == Convs(ts) ==> pos == |s|
    {
      hide Untok, Convs;
      count, pos, t := 0, 0, 0;
      assert ts[..0] == [] && Untok([]) == "" && Convs([]) == 0 by { Zero(); }
      while pos < |s|
        invariant t <= |ts| && pos == |Untok(ts[..t])| <= |s| && count == Convs(ts[..t]) <= n
        invariant pos < |s| ==> t < |ts|
        decreases |s| - pos
      {
        TokAt(ts, t);
        ConvsNext(ts, t);
        ConvsPrefix(ts, t + 1);
        assert ts[t] in ts;
        assert s[pos] == Untok1(ts[t])[0] && (|Untok1(ts[t])| == 2 ==> s[pos + 1] == Untok1(ts[t])[1]);
        var c := s[pos];
        if c == '%' {
          pos := pos + 1;
          c := s[pos];
          if c != '%' { count := count + 1; }
          if count == n + 1 {
            pos := pos - 1;
            return;
          }
        }
        pos := pos + 1;
        t := t + 1;
        EndOfTokens(ts, t);
      }
      AllTokens(ts, t);
    }

    /** The next `n` arguments go with the text up to the conversion behind theirs. */
    method Split(n: nat, isDouble: bool, ghost ts: seq<Tok>, ghost types: seq<Ty>, ghost d: nat)
      requires At(ts, types, d) && 0 < n && d + n <= |types| && (forall x :: x in ts ==> Fine(x))
      requires PieceOk(PCall("", n, isDouble), types[d..d + n])
      modifies this
      ensures At(ts, types, d + n)
    {
      hide Untok, Convs, PieceOk, Progress;
      var pi := |pcalls| - 1;
      LastPiece(pcalls, cuts, ts, types, d);
      var s := pcalls[pi].fmt;
      var count, pos;
      ghost var t;
      count, pos, t := Advance(s, n, ts[cuts[pi]..]);
      if count != n {
        SplitMore(pcalls, cuts, ts, types, d, n, pos, t, isDouble);
        pcalls := pcalls[..pi] + [PCall(s[..pos], n, isDouble)] + [PCall(s[pos..], total - (next - 1) - n, false)];
        cuts := cuts + [cuts[pi] + t];
      } else {
        SplitLast(pcalls, cuts, ts, types, d, n, isDouble);
        if isDouble { pcalls := pcalls[pi := pcalls[pi].(isDouble := true, args := n)]; }
      }
      next := next + n;
    }

    /** The arguments from `i` to `m`, up to the first double; a double is flushed with
        what stands before it. */
    method Batch(i0: int, m: int, args: seq<Ty>, ghost ts: seq<Tok>) returns (i: int)
      requires 1 <= i0 < m <= |args| + 1 && m <= i0 + 4 && At(ts, args, i0 - 1) && (forall x :: x in ts ==> Fine(x))
      modifies this
      ensures i0 < i <= m && At(ts, args, i - 1)
    {
      hide Progress, Convs, Untok;
      i := i0;
      while i < m
        invariant i0 <= i <= m && At(ts, args, i0 - 1) && pcalls == old(pcalls)
        invariant forall k :: i0 - 1 <= k < i - 1 ==> args[k].WordArg?
      {
        if args[i - 1].DoubleArg? {
          var n := i - i0;
          if n > 0 { Split(n, false, ts, args, i0 - 1); }
          assert args[i - 1..i - 1 + 1] == [DoubleArg];
          Split(1, true, ts, args, i - 1);
          i := i + 1;
          return;
        }
        i := i + 1;
      }
      Split(i - i0, false, ts, args, i0 - 1);
    }

    /** Break a call, if need be. */
    method BreakPrintfCall(fmt: string, args: seq<Ty>) returns (broke: bool)
      requires Breaks(args) ==> Fits(fmt, |args|)
      modifies this
      ensures broke <==> Breaks(args)
      ensures broke ==> Progress(pcalls, cuts, Tokenize(fmt).value, args, |args|)
    {
      next, total := 1, |args|;
      pcalls, cuts := [], [0];
      if total < 5 {
        var has2xLenArg := false;
        for i := 0 to |args|
          invariant has2xLenArg <==> DoubleArg in args[..i]
        {
          if args[i].DoubleArg? { has2xLenArg := true; }
        }
        assert args[..|args|] == args;
        if !has2xLenArg { return false; }
      }
      ghost var ts := Tokenize(fmt).value;
      TokenizeExact(fmt);
      hide Tokenize, Untok, Convs;
      pcalls := [PCall(fmt, |args|, false)];
      Begun(fmt, ts, args);
      hide Progress;
      var i := 1;
      while i < |args| + 1
        invariant 1 <= i <= |args| + 1 && At(ts, args, i - 1)
      {
        var m := if i + 4 < |args| + 1 then i + 4 else |args| + 1;
        i := Batch(i, m, args, ts);
      }
      broke := true;
    }

    /** The new calls, each with the next arguments in order; none is left over. */
    method IssueNewCalls(args: seq<Arg>, ghost ts: seq<Tok>, ghost types: seq<Ty>) returns (calls: seq<Call>)
      requires |args| == |types| && Progress(pcalls, cuts, ts, types, |types|)
      ensures Issued(calls, pcalls, cuts, ts, args)
    {
      hide IssuedAt, StartOff, Progress;
      calls := [];
      var argit := 0;
      FirstOff(pcalls, cuts, ts, types, |args|);
      for k := 0 to |pcalls|
        invariant |calls| == k && argit == StartOff(cuts, ts, |args|, k)
        invariant forall j :: 0 <= j < k ==> IssuedAt(calls, pcalls, cuts, ts, args, j)
      {
        IssueStep(calls, pcalls, cuts, ts, types, args, k);
        var n := if pcalls[k].isDouble then 1 else pcalls[k].args;
        calls := calls + [Call(pcalls[k].fmt, args[argit..argit + n], pcalls[k].isDouble)];
        argit := argit + n;
      }
      assert argit == |args| by { LastOff(pcalls, cuts, ts, types, |args|); }
    }

    /** One call of printf, as it is or broken: the same text, and the same sum of
        returned values. */
    method RunOnCall(fmt: string, args: seq<Arg>) returns (calls: seq<Call>)
      requires Breaks(Types(args)) ==> Fits(fmt, |args|)
      modifies this
      ensures !Breaks(Types(args)) ==> calls == [Call(fmt, args, false)]
      ensures Fits(fmt, |args|) ==> forall k :: 0 <= k < |calls| ==> Fits(calls[k].fmt, |calls[k].args|)
      ensures forall k :: 0 <= k < |calls| ==> |calls[k].args| <= 4
      ensures forall k :: 0 <= k < |calls| ==>
                if calls[k].isDouble then |calls[k].args| == 1 else DoubleArg !in Types(calls[k].args)
      ensures Formats(calls) == fmt
      ensures forall p: Plain, r: Render {:trigger AllText(p, r, calls)} :: p("") == "" ==>
                AllText(p, r, calls) == Prints(p, r, fmt, args) && SumReturns(p, r, calls) == |Prints(p, r, fmt, args)|
    {
      hide Prints, AllText, SumReturns, Convs;
      var broke := BreakPrintfCall(fmt, Types(args));
      if broke {
        ghost var ts := Tokenize(fmt).value;
        TokenizeExact(fmt);
        hide Tokenize;
        calls := IssueNewCalls(args, ts, Types(args));
        forall k | 0 <= k < |calls|
          ensures Fits(calls[k].fmt, |calls[k].args|) && |calls[k].args| <= 4
          ensures if calls[k].isDouble then |calls[k].args| == 1 else DoubleArg !in Types(calls[k].args)
        {
          CallShapes(calls, pcalls, cuts, ts, Types(args), args, k);
        }
        forall p: Plain, r: Render | p("") == ""
          ensures Formats(calls) == fmt && AllText(p, r, calls) == Prints(p, r, fmt, args) && SumReturns(p, r, calls) == |Prints(p, r, fmt, args)|
        {
          SamePrint(p, r, fmt, args, calls, pcalls, cuts, Types(args));
        }
        SamePrint(x => "", (x, y) => "", fmt, args, calls, pcalls, cuts, Types(args));
      } else {
        calls := [Call(fmt, args, false)];
        forall p: Plain, r: Render
          ensures AllText(p, r, calls) == Prints(p, r, fmt, args) && SumReturns(p, r, calls) == |Prints(p, r, fmt, args)|
        {
          OneCall(p, r, fmt, args);
        }
        assert Formats(calls) == calls[0].fmt + Formats(calls[1..]);
      }
    }
  }

  lemma OneCall(p: Plain, r: Render, fmt: string, args: seq<Arg>)
    ensures var calls := [Call(fmt, args, false)];
            AllText(p, r, calls) == Prints(p, r, fmt, args) && SumReturns(p, r, calls) == |Prints(p, r, fmt, args)|
  {
    hide Prints;
    var calls := [Call(fmt, args, false)];
    assert calls[1..] == [];
  }

  function Types(args: seq<Arg>): (ts: seq<Ty>)
    ensures |ts| == |args| && forall k :: 0 <= k < |args| ==> ts[k] == args[k].ty
  {
    seq(|args|, k requires 0 <= k < |args| => args[k].ty)
  }

  lemma Begun(fmt: string, ts: seq<Tok>, types: seq<Ty>)
    requires Untok(ts) == fmt && Convs(ts) == |types| > 0
    ensures Progress([PCall(fmt, |types|, false)], [0], ts, types, 0)
  {
    assert ts[0..] == ts && ts[..0] == [];
  }

  lemma PieceSize(pcs: seq<PCall>, cuts: seq<nat>, ts: seq<Tok>, types: seq<Ty>, k: nat)
    requires PieceAt(pcs, cuts, ts, types, k)
    ensures pcs[k].args == Off(ts, cuts[k + 1]) - Off(ts, cuts[k])
  {
  }

  ghost function EndOff(cuts: seq<nat>, ts: seq<Tok>, n: nat, k: int): nat
    requires 0 <= k < |cuts| && forall j :: 0 <= j < |cuts| ==> cuts[j] <= |ts|
  {
    if k + 1 < |cuts| then Off(ts, cuts[k + 1]) else n
  }

  ghost predicate IssuedAt(calls: seq<Call>, pcs: seq<PCall>, cuts: seq<nat>, ts: seq<Tok>, args: seq<Arg>, k: int) {
    && 0 <= k < |calls| && k < |pcs| == |cuts| && (forall j :: 0 <= j < |cuts| ==> cuts[j] <= |ts|)
    && Off(ts, cuts[k]) <= EndOff(cuts, ts, |args|, k) <= |args|
    && calls[k] == Call(pcs[k].fmt, args[Off(ts, cuts[k])..EndOff(cuts, ts, |args|, k)], pcs[k].isDouble)
  }

  // The number of arguments before piece `k`.
  ghost function StartOff(cuts: seq<nat>, ts: seq<Tok>, n: nat, k: nat): nat {
    if k < |cuts| && cuts[k] <= |ts| then Off(ts, cuts[k]) else n
  }

  lemma FirstOff(pcs: seq<PCall>, cuts: seq<nat>, ts: seq<Tok>, types: seq<Ty>, n: nat)
    requires Progress(pcs, cuts, ts, types, |types|)
    ensures |pcs| == |cuts| && StartOff(cuts, ts, n, 0) == 0
  {
    hide Convs, Untok;
    Zero();
    assert ts[..0] == [];
  }

  lemma LastOff(pcs: seq<PCall>, cuts: seq<nat>, ts: seq<Tok>, types: seq<Ty>, n: nat)
    requires Progress(pcs, cuts, ts, types, |types|)
    ensures StartOff(cuts, ts, n, |pcs|) == n
  {
  }

  // Piece `k` takes the arguments up to the start of the next.
  lemma TakesArgs(pcs: seq<PCall>, cuts: seq<nat>, ts: seq<Tok>, types: seq<Ty>, k: nat)
    requires Progress(pcs, cuts, ts, types, |types|) && k < |pcs|
    ensures var n := if pcs[k].isDouble then 1 else pcs[k].args;
            && |pcs| == |cuts| && (forall j :: 0 <= j < |cuts| ==> cuts[j] <= |ts|)
            && 0 <= StartOff(cuts, ts, |types|, k) && n >= 0
            && StartOff(cuts, ts, |types|, k) + n == StartOff(cuts, ts, |types|, k + 1) <= |types|
            && StartOff(cuts, ts, |types|, k + 1) == EndOff(cuts, ts, |types|, k)
  {
    hide Convs, Untok;
    if k < |pcs| - 1 {
      assert PieceAt(pcs, cuts, ts, types, k);
      PieceSize(pcs, cuts, ts, types, k);
    }
  }

  lemma IssueStep(calls: seq<Call>, pcs: seq<PCall>, cuts: seq<nat>, ts: seq<Tok>, types: seq<Ty>, args: seq<Arg>, k: nat)
    requires |args| == |types| && Progress(pcs, cuts, ts, types, |types|) && |calls| == k < |pcs|
    requires forall j :: 0 <= j < k ==> IssuedAt(calls, pcs, cuts, ts, args, j)
    ensures var argit, n := StartOff(cuts, ts, |args|, k), if pcs[k].isDouble then 1 else pcs[k].args;
            && 0 <= argit <= argit + n == StartOff(cuts, ts, |args|, k + 1) <= |args|
            && var calls' := calls + [Call(pcs[k].fmt, args[argit..argit + n], pcs[k].isDouble)];
               forall j :: 0 <= j < k + 1 ==> IssuedAt(calls', pcs, cuts, ts, args, j)
  {
    hide Progress, Off;
    TakesArgs(pcs, cuts, ts, types, k);
    var argit, n := StartOff(cuts, ts, |args|, k), if pcs[k].isDouble then 1 else pcs[k].args;
    var calls' := calls + [Call(pcs[k].fmt, args[argit..argit + n], pcs[k].isDouble)];
    forall j | 0 <= j < k + 1
      ensures IssuedAt(calls', pcs, cuts, ts, args, j)
    {
      if j < k { assert IssuedAt(calls, pcs, cuts, ts, args, j); }
    }
  }

  ghost predicate Issued(calls: seq<Call>, pcs: seq<PCall>, cuts: seq<nat>, ts: seq<Tok>, args: seq<Arg>) {
    |calls| == |pcs| && forall k :: 0 <= k < |calls| ==> IssuedAt(calls, pcs, cuts, ts, args, k)
  }

  // ---- what the new calls print ----

  function AllText(p: Plain, r: Render, calls: seq<Call>): string {
    if calls == [] then "" else Prints(p, r, calls[0].fmt, calls[0].args) + AllText(p, r, calls[1..])
  }

  // The sum of the values the calls return, each the length of its text.
  function SumReturns(p: Plain, r: Render, calls: seq<Call>): nat {
    if calls == [] then 0 else |Prints(p, r, calls[0].fmt, calls[0].args)| + SumReturns(p, r, calls[1..])
  }

  function Formats(calls: seq<Call>): string {
    if calls == [] then "" else calls[0].fmt + Formats(calls[1..])
  }

  lemma {:induction false} SumIsLength(p: Plain, r: Render, calls: seq<Call>)
    ensures SumReturns(p, r, calls) == |AllText(p, r, calls)|
  {
    if calls != [] { SumIsLength(p, r, calls[1..]); }
  }

  /** The calls from the `k`-th on print what the rest of the format prints, and their
      formats are the rest of the format. */
  lemma {:induction false} RestPrints(p: Plain, r: Render, calls: seq<Call>, pcs: seq<PCall>, cuts: seq<nat>, ts: seq<Tok>,
                                      types: seq<Ty>, args: seq<Arg>, k: nat)
    requires p("") == "" && |args| == |types| && (forall x :: x in ts ==> Fine(x))
    requires Progress(pcs, cuts, ts, types, |types|) && Issued(calls, pcs, cuts, ts, args) && k < |pcs|
    ensures cuts[k] <= |ts| && Off(ts, cuts[k]) <= |args|
    ensures AllText(p, r, calls[k..]) == Text(p, r, ts[cuts[k]..], args[Off(ts, cuts[k])..])
    ensures Formats(calls[k..]) == Untok(ts[cuts[k]..])
    decreases |pcs| - k
  {
    hide Text, Untok, Convs, PieceOk, Tokenize, AllText, Formats, Prints;
    var c, o := cuts[k], Off(ts, cuts[k]);
    assert IssuedAt(calls, pcs, cuts, ts, args, k);
    AllTextFrom(p, r, calls, k);
    RestConvs(ts, c);
    if k + 1 == |pcs| {
      PrintsTokens(p, r, ts[c..], args[o..]);
      AllTextEnd(p, r, calls);
      assert args[..|args|] == args;
    } else {
      assert PieceAt(pcs, cuts, ts, types, k);
      var c', o' := cuts[k + 1], Off(ts, cuts[k + 1]);
      RestPrints(p, r, calls, pcs, cuts, ts, types, args, k + 1);
      PieceCut(p, r, ts, args, c, c');
    }
  }

  lemma AllTextFrom(p: Plain, r: Render, calls: seq<Call>, k: nat)
    requires k < |calls|
    ensures AllText(p, r, calls[k..]) == Prints(p, r, calls[k].fmt, calls[k].args) + AllText(p, r, calls[k + 1..])
    ensures Formats(calls[k..]) == calls[k].fmt + Formats(calls[k + 1..])
  {
    assert calls[k..][0] == calls[k] && calls[k..][1..] == calls[k + 1..];
  }

  lemma AllTextEnd(p: Plain, r: Render, calls: seq<Call>)
    ensures AllText(p, r, calls[|calls|..]) == "" && Formats(calls[|calls|..]) == ""
  {
  }

  lemma PrintsTokens(p: Plain, r: Render, ts: seq<Tok>, args: seq<Arg>)
    requires forall x :: x in ts ==> Fine(x)
    ensures Prints(p, r, Untok(ts), args) == Text(p, r, ts, args)
  {
    hide Text, Untok, Tokenize;
    TokenizeUntok(ts);
  }

  // The rest from `c`, cut at `c'`.
  lemma PieceCut(p: Plain, r: Render, ts: seq<Tok>, args: seq<Arg>, c: nat, c': nat)
    requires p("") == "" && c < c' < |ts| && ts[c'].Conv? && Convs(ts) == |args| && forall x :: x in ts ==> Fine(x)
    ensures Off(ts, c) <= Off(ts, c') <= |args|
    ensures Text(p, r, ts[c..], args[Off(ts, c)..])
            == Prints(p, r, Untok(ts[c..c']), args[Off(ts, c)..Off(ts, c')]) + Text(p, r, ts[c'..], args[Off(ts, c')..])
    ensures Untok(ts[c..]) == Untok(ts[c..c']) + Untok(ts[c'..])
  {
    hide Text, Untok, Convs, Prints;
    RestConvs(ts, c);
    ConvsPrefix(ts, c');
    var o, o' := Off(ts, c), Off(ts, c');
    Slices(ts, c, c');
    ConvsAppend(ts[..c], ts[c..c']);
    Slices(args, o, o');
    TextCut(p, r, ts[c..], c' - c, args[o..]);
    PrintsTokens(p, r, ts[c..c'], args[o..o']);
    UntokAppend(ts[c..c'], ts[c'..]);
  }

  lemma Slices<T>(s: seq<T>, c: nat, c': nat)
    requires c <= c' <= |s|
    ensures s[c..][..c' - c] == s[c..c'] && s[c..][c' - c..] == s[c'..]
    ensures s[..c'] == s[..c] + s[c..c'] && s[c..] == s[c..c'] + s[c'..]
    ensures c' < |s| ==> s[c..][c' - c] == s[c']
  {
  }

  /** Breaking a call keeps its meaning: the formats of the new calls make up the
      original one, together they print the same text whatever the way conversions are
      rendered, and the values they return add up to the original one. */
  lemma SamePrint(p: Plain, r: Render, fmt: string, args: seq<Arg>, calls: seq<Call>, pcs: seq<PCall>, cuts: seq<nat>, types: seq<Ty>)
    requires p("") == "" && Fits(fmt, |args|) && |args| == |types|
    requires Progress(pcs, cuts, Tokenize(fmt).value, types, |types|) && Issued(calls, pcs, cuts, Tokenize(fmt).value, args)
    ensures Formats(calls) == fmt
    ensures AllText(p, r, calls) == Prints(p, r, fmt, args)
    ensures SumReturns(p, r, calls) == |Prints(p, r, fmt, args)|
  {
    hide Text, Untok, Convs, PieceOk;
    var ts := Tokenize(fmt).value;
    TokenizeExact(fmt);
    hide Tokenize;
    RestPrints(p, r, calls, pcs, cuts, ts, types, args, 0);
    Zero();
    assert ts[..0] == [] && ts[0..] == ts && args[0..] == args && calls[0..] == calls;
    SumIsLength(p, r, calls);
  }

  /** Each new call has as many conversions as arguments, at most four, and a double
      alone. */
  lemma CallShapes(calls: seq<Call>, pcs: seq<PCall>, cuts: seq<nat>, ts: seq<Tok>, types: seq<Ty>, args: seq<Arg>, k: nat)
    requires |args| == |types| && (forall j :: 0 <= j < |args| ==> args[j].ty == types[j]) && (forall x :: x in ts ==> Fine(x))
    requires Progress(pcs, cuts, ts, types, |types|) && Issued(calls, pcs, cuts, ts, args) && k < |calls|
    ensures Fits(calls[k].fmt, |calls[k].args|) && |calls[k].args| <= 4
    ensures if calls[k].isDouble then |calls[k].args| == 1 && calls[k].args[0].ty.DoubleArg?
            else forall j :: 0 <= j < |calls[k].args| ==> calls[k].args[j].ty.WordArg?
  {
    hide Untok, Convs, Tokenize;
    assert IssuedAt(calls, pcs, cuts, ts, args, k);
    var c, o := cuts[k], Off(ts, cuts[k]);
    if k + 1 == |pcs| {
      RestConvs(ts, c);
      TokenizeUntok(ts[c..]);
    } else {
      assert PieceAt(pcs, cuts, ts, types, k);
      PieceSize(pcs, cuts, ts, types, k);
      TokenizeUntok(ts[c..cuts[k + 1]]);
    }
    var o' := EndOff(cuts, ts, |args|, k);
    assert types[o..|types|] == types[o..];
    assert forall j :: 0 <= j < o' - o ==> calls[k].args[j].ty == types[o..o'][j];
  }

  lemma Zero()
    ensures Untok([]) == "" && Convs([]) == 0
  {
  }

  lemma ConvsNext(ts: seq<Tok>, t: nat)
    requires t < |ts|
    ensures Convs(ts[..t + 1]) == Convs(ts[..t]) + if ts[t].Conv? then 1 else 0
  {
    assert ts[..t + 1][..t] == ts[..t];
  }

  lemma ConvsPrefix(ts: seq<Tok>, t: nat)
    requires t <= |ts|
    ensures Convs(ts[..t]) <= Convs(ts)
  {
    ConvsAppend(ts[..t], ts[t..]);
    assert ts == ts[..t] + ts[t..];
  }

  lemma RestConvs(ts: seq<Tok>, c: nat)
    requires c <= |ts|
    ensures Convs(ts[c..]) == Convs(ts) - Convs(ts[..c])
    ensures (forall x :: x in ts ==> Fine(x)) ==> forall x :: x in ts[c..] ==> Fine(x)
  {
    ConvsAppend(ts[..c], ts[c..]);
    assert ts == ts[..c] + ts[c..];
  }

  // The string ends where the tokens end.
  lemma EndOfTokens(ts: seq<Tok>, t: nat)
    requires t <= |ts|
    ensures |Untok(ts[..t])| <= |Untok(ts)| && (|Untok(ts[..t])| < |Untok(ts)| ==> t < |ts|)
  {
    UntokAppend(ts[..t], ts[t..]);
    assert ts == ts[..t] + ts[t..];
  }

  lemma AllTokens(ts: seq<Tok>, t: nat)
    requires t <= |ts| && |Untok(ts[..t])| == |Untok(ts)|
    ensures t == |ts| && ts[..t] == ts
  {
    if t < |ts| { PrefixShorter(ts, t); }
  }

  lemma PrefixShorter(ts: seq<Tok>, t: nat)
    requires t < |ts|
    ensures |Untok(ts[..t])| < |Untok(ts)|
  {
    hide Untok;
    UntokNext(ts, t);
    UntokAppend(ts[..t + 1], ts[t + 1..]);
    assert ts == ts[..t + 1] + ts[t + 1..];
  }
}
