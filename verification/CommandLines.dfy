/**
 Command lines and the arguments they stand for: words of plain, escaped, single-quoted
 and double-quoted pieces, redirections, and spaces between them.
 */
module CommandLines {
  import opened Tokenizer
  import opened Quoting

  /** A character, perhaps behind a backslash. */
  datatype Ch = Ch(c: char, escaped: bool)

  datatype Piece = Bare(ch: Ch) | Single(s: string) | Double(chs: seq<Ch>)

  /** A word of one piece or more, or one of the signs > and >>. */
  datatype Item = Word(ps: seq<Piece>) | Arrow(twice: bool)

  /** An item behind that many spaces. */
  datatype Entry = Entry(gap: nat, item: Item)

  // ---- Text ------------------------------------------------------------------------------

  function ChText(ch: Ch): string { if ch.escaped then ['\\', ch.c] else [ch.c] }

  function ChsText(chs: seq<Ch>): string { if chs == [] then "" else ChText(chs[0]) + ChsText(chs[1..]) }

  function PieceText(p: Piece): string
  {
    match p
    case Bare(ch) => ChText(ch)
    case Single(s) => "\'" + s + "\'"
    case Double(chs) => "\"" + ChsText(chs) + "\""
  }

  function WordText(ps: seq<Piece>): string { if ps == [] then "" else PieceText(ps[0]) + WordText(ps[1..]) }

  function ItemText(x: Item): string
  {
    match x
    case Word(ps) => WordText(ps)
    case Arrow(twice) => if twice then ">>" else ">"
  }

  function Spaces(n: nat): (s: string)
    ensures |s| == n && forall i :: 0 <= i < n ==> s[i] == ' '
  {
    seq(n, _ => ' ')
  }

  function Text(es: seq<Entry>, tail: nat): string
  {
    if es == [] then Spaces(tail) else Spaces(es[0].gap) + (ItemText(es[0].item) + Text(es[1..], tail))
  }

  // ---- Meaning ---------------------------------------------------------------------------

  function ChsValue(chs: seq<Ch>): string { if chs == [] then "" else [chs[0].c] + ChsValue(chs[1..]) }

  function PieceValue(p: Piece): string
  {
    match p
    case Bare(ch) => [ch.c]
    case Single(s) => s
    case Double(chs) => ChsValue(chs)
  }

  function WordValue(ps: seq<Piece>): string { if ps == [] then "" else PieceValue(ps[0]) + WordValue(ps[1..]) }

  function ItemValue(x: Item): string
  {
    match x
    case Word(ps) => WordValue(ps)
    case Arrow(twice) => if twice then ">>" else ">"
  }

  // ---- Well-formed lines -------------------------------------------------------------------

  predicate BareOk(ch: Ch)
  {
    ch.c != '\0' && (ch.escaped || (ch.c != ' ' && ch.c != '>' && ch.c != '\'' && ch.c != '\"' && ch.c != '\\'))
  }

  predicate DoubleOk(ch: Ch) { ch.c != '\0' && (ch.escaped || (ch.c != '\"' && ch.c != '\\')) }

  predicate PieceOk(p: Piece)
  {
    match p
    case Bare(ch) => BareOk(ch)
    case Single(s) => '\'' !in s && '\0' !in s
    case Double(chs) => forall i :: 0 <= i < |chs| ==> DoubleOk(chs[i])
  }

  predicate ItemOk(x: Item) { x.Word? ==> x.ps != [] && forall i :: 0 <= i < |x.ps| ==> PieceOk(x.ps[i]) }

  /** Two words need a space between them, and so do a > and another sign behind it. */
  predicate Apart(x: Item, e: Entry)
  {
    e.gap > 0 || !((x.Word? && e.item.Word?) || (x == Arrow(false) && e.item.Arrow?))
  }

  predicate LineOk(es: seq<Entry>)
  {
    && (forall i :: 0 <= i < |es| ==> ItemOk(es[i].item))
    && (forall i :: 0 < i < |es| ==> Apart(es[i - 1].item, es[i]))
  }

  // ---- Characters and pieces ---------------------------------------------------------------

  /** Text w lies at p. */
  predicate LiesAt(s: string, p: nat, w: string) { p + |w| <= |s| && s[p..p + |w|] == w }

  lemma LiesAtChar(s: string, p: nat, w: string, i: nat)
    requires LiesAt(s, p, w) && i < |w|
    ensures p + i < |s| && s[p + i] == w[i]
  {
    assert s[p..p + |w|][i] == s[p + i];
  }

  lemma LiesAtParts(s: string, p: nat, a: string, b: string)
    requires LiesAt(s, p, a + b)
    ensures LiesAt(s, p, a) && LiesAt(s, p + |a|, b)
  {
    var w := s[p..p + |a + b|];
    assert w[..|a|] == a && w[|a|..] == b;
    assert s[p..p + |a|] == w[..|a|] && s[p + |a|..p + |a| + |b|] == w[|a|..];
  }

  /** t after the characters v of a token. */
  function Wrote(t: Scan, v: string): Scan { Open(t).(out := t.out + v) }

  /** Room to open a token and read on. */
  predicate Roomy(t: Scan) { |t.argv| < 15 || (t.inToken && |t.argv| == 15) }

  lemma WroteMore(t: Scan, v: string, w: string)
    requires Roomy(t)
    ensures Wrote(Wrote(t, v), w) == Wrote(t, v + w) && Roomy(Wrote(t, v)) && Wrote(t, v).inToken && |Wrote(t, v).argv| <= 15
  {
    assert t.out + v + w == t.out + (v + w);
  }

  lemma RunBare(s: string, p: nat, t: Scan, ch: Ch)
    requires LiesAt(s, p, ChText(ch)) && BareOk(ch) && !t.escaped && t.quote == NUL && Roomy(t)
    ensures Run(s, p, t) == Run(s, p + |ChText(ch)|, Wrote(t, [ch.c]))
  {
    LiesAtChar(s, p, ChText(ch), 0);
    RunStep(s, p, t);
    if ch.escaped {
      LiesAtChar(s, p, ChText(ch), 1);
      var u := t.(escaped := true);
      assert Step(t, s[p], false) == u;
      RunStep(s, p + 1, u);
      assert Step(u, s[p + 1], false) == Wrote(t, [ch.c]);
    } else {
      assert Step(t, s[p], false) == Wrote(t, [ch.c]);
    }
  }

  lemma Grouped(a: string, b: string, c: string)
    ensures a + b + c == a + (b + c)
  {
  }

  /** Between double quotes. */
  lemma {:induction false} RunChs(s: string, p: nat, a: Scan, chs: seq<Ch>)
    requires LiesAt(s, p, ChsText(chs)) && (forall i :: 0 <= i < |chs| ==> DoubleOk(chs[i]))
    requires a.quote == DQUOTE && !a.escaped && a.inToken && |a.argv| <= 15
    ensures Run(s, p, a) == Run(s, p + |ChsText(chs)|, a.(out := a.out + ChsValue(chs)))
    decreases |chs|
  {
    hide Run, ChText, DoubleOk, LiesAt;
    if chs == [] {
      assert a.out + ChsValue(chs) == a.out;
    } else {
      var ch := chs[0];
      LiesAtParts(s, p, ChText(ch), ChsText(chs[1..]));
      RunDouble(s, p, a, ch);
      var b := a.(out := a.out + [ch.c]);
      RunChs(s, p + |ChText(ch)|, b, chs[1..]);
      Grouped(a.out, [ch.c], ChsValue(chs[1..]));
    }
  }

  lemma RunDouble(s: string, p: nat, a: Scan, ch: Ch)
    requires LiesAt(s, p, ChText(ch)) && DoubleOk(ch) && a.quote == DQUOTE && !a.escaped && a.inToken && |a.argv| <= 15
    ensures Run(s, p, a) == Run(s, p + |ChText(ch)|, a.(out := a.out + [ch.c]))
  {
    LiesAtChar(s, p, ChText(ch), 0);
    RunStep(s, p, a);
    if ch.escaped {
      LiesAtChar(s, p, ChText(ch), 1);
      var u := a.(escaped := true);
      assert Step(a, s[p], false) == u;
      RunStep(s, p + 1, u);
      assert Step(u, s[p + 1], false) == a.(out := a.out + [ch.c]);
    } else {
      assert Step(a, s[p], false) == a.(out := a.out + [ch.c]);
    }
  }

  lemma RunPiece(s: string, p: nat, t: Scan, x: Piece)
    requires LiesAt(s, p, PieceText(x)) && PieceOk(x) && !t.escaped && t.quote == NUL && Roomy(t)
    ensures Run(s, p, t) == Run(s, p + |PieceText(x)|, Wrote(t, PieceValue(x)))
  {
    hide Run, ChsText, ChsValue, LiesAt, Wrote, Roomy, BareOk, DoubleOk, ChText;
    match x
    case Bare(ch) => RunBare(s, p, t, ch);
    case Single(w) => RunSingle(s, p, t, w);
    case Double(chs) => RunDoubles(s, p, t, chs);
  }

  lemma RunSingle(s: string, p: nat, t: Scan, w: string)
    requires LiesAt(s, p, "\'" + w + "\'") && PieceOk(Single(w)) && !t.escaped && t.quote == NUL && Roomy(t)
    ensures Run(s, p, t) == Run(s, p + |w| + 2, Wrote(t, w))
  {
    hide Run, LiesAt;
    var e := "\'" + w + "\'";
    LiesAtChar(s, p, e, 0);
    LiesAtChar(s, p, e, |w| + 1);
    forall i | 0 <= i < |w| ensures s[p + 1 + i] == w[i] { LiesAtChar(s, p, e, 1 + i); }
    RunStep(s, p, t);
    var a := Open(t.(quote := QUOTE));
    assert Step(t, QUOTE, false) == a;
    InQuotes(s, p + 1, a, w);
    var b := a.(out := a.out + w);
    RunStep(s, p + 1 + |w|, b);
    assert Step(b, QUOTE, false) == Wrote(t, w);
  }

  lemma RunDoubles(s: string, p: nat, t: Scan, chs: seq<Ch>)
    requires LiesAt(s, p, "\"" + ChsText(chs) + "\"") && PieceOk(Double(chs)) && !t.escaped && t.quote == NUL && Roomy(t)
    ensures Run(s, p, t) == Run(s, p + |ChsText(chs)| + 2, Wrote(t, ChsValue(chs)))
  {
    hide Run, ChsText, ChsValue, LiesAt, DoubleOk;
    var w, v := ChsText(chs), ChsValue(chs);
    LiesAtParts(s, p, "\"" + w, "\"");
    LiesAtParts(s, p, "\"", w);
    LiesAtChar(s, p, "\"", 0);
    LiesAtChar(s, p + 1 + |w|, "\"", 0);
    RunStep(s, p, t);
    var a := Open(t.(quote := DQUOTE));
    assert Step(t, DQUOTE, false) == a;
    RunChs(s, p + 1, a, chs);
    var b := a.(out := a.out + v);
    RunStep(s, p + 1 + |w|, b);
    assert Step(b, DQUOTE, false) == Wrote(t, v);
  }

  lemma {:induction false} RunPieces(s: string, p: nat, t: Scan, ps: seq<Piece>)
    requires LiesAt(s, p, WordText(ps)) && ps != [] && (forall i :: 0 <= i < |ps| ==> PieceOk(ps[i]))
    requires !t.escaped && t.quote == NUL && Roomy(t)
    ensures Run(s, p, t) == Run(s, p + |WordText(ps)|, Wrote(t, WordValue(ps)))
    decreases |ps|
  {
    hide PieceText, PieceValue, PieceOk, Run;
    LiesAtParts(s, p, PieceText(ps[0]), WordText(ps[1..]));
    RunPiece(s, p, t, ps[0]);
    var u := Wrote(t, PieceValue(ps[0]));
    WroteMore(t, PieceValue(ps[0]), WordValue(ps[1..]));
    if |ps| == 1 {
      assert WordText(ps) == PieceText(ps[0]) && WordValue(ps) == PieceValue(ps[0]);
    } else {
      RunPieces(s, p + |PieceText(ps[0])|, u, ps[1..]);
    }
  }

  /** Spaces end a token. */
  lemma {:induction false} RunSpaces(s: string, p: nat, t: Scan, n: nat)
    requires LiesAt(s, p, Spaces(n)) && !t.escaped && t.quote == NUL && |t.argv| <= 15
    ensures Run(s, p, t) == Run(s, p + n, if n > 0 then Close(t) else t)
    decreases n
  {
    if n > 0 {
      LiesAtChar(s, p, Spaces(n), 0);
      RunStep(s, p, t);
      assert Step(t, ' ', false) == Close(t);
      assert Spaces(n) == [' '] + Spaces(n - 1);
      LiesAtParts(s, p, [' '], Spaces(n - 1));
      RunSpaces(s, p + 1, Close(t), n - 1);
    }
  }

  // ---- What the scan has found -------------------------------------------------------------

  /** The C string v lies at o of out, with its terminator. */
  predicate Ended(out: string, o: nat, v: string) { NUL !in v && o + |v| < |out| && out[o..o + |v|] == v && out[o + |v|] == NUL }

  /** The arguments found are vals; the last one may still be open. */
  ghost predicate Holds(t: Scan, vals: seq<string>)
  {
    ( && |t.argv| == |vals| && (t.inToken ==> vals != [])
      && (forall i :: 0 <= i < |vals| - (if t.inToken then 1 else 0) ==> Ended(t.out, t.argv[i], vals[i]))
      && (t.inToken ==> t.argv[|vals| - 1] <= |t.out| && t.out[t.argv[|vals| - 1]..] == vals[|vals| - 1] && NUL !in vals[|vals| - 1])) == true
  }

  lemma EndedMore(out: string, o: nat, v: string, more: string)
    requires Ended(out, o, v)
    ensures Ended(out + more, o, v)
  {
    assert (out + more)[o..o + |v|] == out[o..o + |v|];
  }

  lemma HoldsClose(t: Scan, vals: seq<string>)
    requires Holds(t, vals)
    ensures Holds(Close(t), vals)
  {
    if t.inToken {
      var u := Close(t);
      var n := |vals| - 1;
      forall i | 0 <= i < |vals| ensures Ended(u.out, u.argv[i], vals[i]) {
        if i < n {
          EndedMore(t.out, t.argv[i], vals[i], [NUL]);
        } else {
          assert u.out[t.argv[n]..t.argv[n] + |vals[n]|] == t.out[t.argv[n]..];
        }
      }
    }
  }

  /** A token v was begun and read so far; quote and escape play no part. */
  lemma HoldsWord(t: Scan, vals: seq<string>, v: string, quote: char, escaped: bool)
    requires Holds(t, vals) && !t.inToken && NUL !in v
    ensures Holds(Wrote(t, v).(quote := quote, escaped := escaped), vals + [v])
  {
    var u := Wrote(t, v);
    forall i | 0 <= i < |vals| ensures Ended(u.out, u.argv[i], vals[i]) {
      EndedMore(t.out, t.argv[i], vals[i], v);
    }
    assert u.out[|t.out|..] == v;
  }

  lemma HoldsArrow(t: Scan, vals: seq<string>, twice: bool)
    requires Holds(t, vals) && !t.inToken
    ensures Holds(Redirect(t, twice), vals + [if twice then ">>" else ">"])
  {
    var u, v := Redirect(t, twice), if twice then ">>" else ">";
    assert u.out == t.out + (v + [NUL]);
    forall i | 0 <= i < |vals| ensures Ended(u.out, u.argv[i], vals[i]) {
      EndedMore(t.out, t.argv[i], vals[i], v + [NUL]);
    }
    assert u.out[|t.out|..|t.out| + |v|] == v;
  }

  lemma HoldsArgs(t: Scan, vals: seq<string>, i: nat)
    requires Holds(t, vals) && i < |vals|
    ensures |t.argv| == |vals| && CString(t.out, t.argv[i]) == vals[i]
  {
    var o, v := t.argv[i], vals[i];
    hide CString;
    if t.inToken && i == |vals| - 1 {
      assert t.out == t.out[..o] + v + "";
      StringAt(t.out[..o], v, "");
    } else {
      assert Ended(t.out, o, v);
      var rest := t.out[o + |v|..];
      assert t.out == t.out[..o] + v + rest && rest[0] == NUL;
      StringAt(t.out[..o], v, rest);
    }
  }

  lemma {:induction false} ChsClean(chs: seq<Ch>)
    requires forall i :: 0 <= i < |chs| ==> DoubleOk(chs[i])
    ensures NUL !in ChsValue(chs)
  {
    if chs != [] { ChsClean(chs[1..]); }
  }

  lemma {:induction false} WordClean(ps: seq<Piece>)
    requires forall i :: 0 <= i < |ps| ==> PieceOk(ps[i])
    ensures NUL !in WordValue(ps)
  {
    if ps != [] {
      assert PieceOk(ps[0]);
      if ps[0].Double? { ChsClean(ps[0].chs); }
      WordClean(ps[1..]);
    }
  }

  // ---- Lines -----------------------------------------------------------------------------

  /** What is left of an item that becomes the 16th argument: the scan stops as soon as it
      has opened, so a word is cut after its first character, or at its first quote. */
  function Cut(x: Item): string
  {
    if x.Word? && x.ps != [] then (if x.ps[0].Bare? then [x.ps[0].ch.c] else "") else ItemValue(x)
  }

  /** The arguments of a line when room more are read in full. */
  function Args(es: seq<Entry>, room: nat): seq<string>
  {
    if es == [] then [] else if room == 0 then [Cut(es[0].item)] else [ItemValue(es[0].item)] + Args(es[1..], room - 1)
  }

  /** A text does not begin with >. */
  predicate NoArrow(s: string, p: nat) { p >= |s| || s[p] != '>' }

  lemma WordStart(s: string, p: nat, x: Item)
    requires x.Word? && ItemOk(x) && LiesAt(s, p, ItemText(x))
    ensures p < |s| && s[p] != '>'
  {
    assert PieceOk(x.ps[0]);
    LiesAtParts(s, p, PieceText(x.ps[0]), WordText(x.ps[1..]));
    match x.ps[0]
    case Bare(ch) => LiesAtChar(s, p, ChText(ch), 0);
    case Single(w) => LiesAtChar(s, p, "\'" + w + "\'", 0);
    case Double(chs) => LiesAtChar(s, p, "\"" + ChsText(chs) + "\"", 0);
  }

  /** Behind a single > there is no second one. */
  lemma NextIsNoArrow(s: string, p: nat, es: seq<Entry>, tail: nat)
    requires LiesAt(s, p, Text(es, tail)) && p + |Text(es, tail)| == |s|
    requires es != [] ==> ItemOk(es[0].item) && (es[0].gap > 0 || es[0].item.Word?)
    ensures NoArrow(s, p)
  {
    hide ItemText, ItemOk;
    if es == [] {
      if tail > 0 { LiesAtChar(s, p, Spaces(tail), 0); }
    } else {
      LiesAtParts(s, p, Spaces(es[0].gap), ItemText(es[0].item) + Text(es[1..], tail));
      if es[0].gap > 0 {
        LiesAtChar(s, p, Spaces(es[0].gap), 0);
      } else {
        LiesAtParts(s, p, ItemText(es[0].item), Text(es[1..], tail));
        WordStart(s, p, es[0].item);
      }
    }
  }

  lemma RunArrow(s: string, p: nat, t: Scan, twice: bool)
    requires LiesAt(s, p, if twice then ">>" else ">") && !t.escaped && t.quote == NUL && |t.argv| <= 15
    requires !twice ==> NoArrow(s, p + 1)
    ensures Run(s, p, t) == Run(s, if twice then p + 2 else p + 1, Redirect(Close(t), twice))
  {
    hide Run;
    var w := if twice then ">>" else ">";
    LiesAtChar(s, p, w, 0);
    if twice { LiesAtChar(s, p, w, 1); }
    RunStep(s, p, t);
    assert Takes2(t, s, p) <==> twice;
  }

  /** A 16th word ends the scan. */
  lemma RunCut(s: string, p: nat, t: Scan, x: Item, vals: seq<string>)
    requires x.Word? && ItemOk(x) && LiesAt(s, p, ItemText(x)) && Holds(t, vals)
    requires !t.escaped && t.quote == NUL && !t.inToken && |t.argv| == 15
    ensures Holds(Run(s, p, t), vals + [Cut(x)])
  {
    hide Holds, Run;
    var y := x.ps[0];
    assert PieceOk(y);
    LiesAtParts(s, p, PieceText(y), WordText(x.ps[1..]));
    LiesAtChar(s, p, PieceText(y), 0);
    RunStep(s, p, t);
    match y
    case Bare(ch) =>
      HoldsWord(t, vals, [ch.c], NUL, false);
      var u := Wrote(t, [ch.c]);
      if ch.escaped {
        LiesAtChar(s, p, ChText(ch), 1);
        var e := t.(escaped := true);
        assert Step(t, s[p], false) == e;
        RunStep(s, p + 1, e);
        assert Step(e, s[p + 1], false) == u;
        RunEnd(s, p + 2, u);
      } else {
        assert Step(t, s[p], false) == u;
        RunEnd(s, p + 1, u);
      }
    case Single(_) => CutAtQuote(s, p, t, vals, QUOTE);
    case Double(_) => CutAtQuote(s, p, t, vals, DQUOTE);
  }

  lemma CutAtQuote(s: string, p: nat, t: Scan, vals: seq<string>, quote: char)
    requires p < |s| && s[p] == quote && (quote == QUOTE || quote == DQUOTE) && Holds(t, vals)
    requires !t.escaped && t.quote == NUL && !t.inToken && |t.argv| == 15
    ensures Holds(Run(s, p, t), vals + [""])
  {
    hide Holds, Run;
    RunStep(s, p, t);
    HoldsWord(t, vals, "", quote, false);
    var u := Open(t.(quote := quote));
    assert u == Wrote(t, "").(quote := quote, escaped := false);
    assert Step(t, quote, false) == u;
    RunEnd(s, p + 1, u);
  }

  lemma {:induction false} RunLine(s: string, p: nat, t: Scan, es: seq<Entry>, tail: nat, vals: seq<string>)
    requires LiesAt(s, p, Text(es, tail)) && p + |Text(es, tail)| == |s| && LineOk(es)
    requires Holds(t, vals) && !t.escaped && t.quote == NUL && |t.argv| == |vals| <= 15
    requires t.inToken && es != [] && es[0].item.Word? ==> es[0].gap > 0
    ensures Holds(Run(s, p, t), vals + Args(es, 15 - |vals|))
    decreases |es|
  {
    hide Holds, Run, ItemText, ItemOk, Close, ItemValue, Redirect;
    if es == [] {
      RunSpaces(s, p, t, tail);
      HoldsClose(t, vals);
      RunEnd(s, p + tail, if tail > 0 then Close(t) else t);
      assert vals + Args(es, 15 - |vals|) == vals;
    } else {
      var gap, x := es[0].gap, es[0].item;
      var rest := Text(es[1..], tail);
      LiesAtParts(s, p, Spaces(gap), ItemText(x) + rest);
      LiesAtParts(s, p + gap, ItemText(x), rest);
      RunSpaces(s, p, t, gap);
      HoldsClose(t, vals);
      CloseIs(t);
      var u := if gap > 0 then Close(t) else t;
      RunItem(s, p + gap, u, es, tail, vals);
    }
  }

  lemma CloseIs(t: Scan)
    ensures !Close(t).inToken && Close(t).argv == t.argv && Close(t).quote == t.quote && Close(t).escaped == t.escaped
  {
  }

  /** The first item and what follows. */
  lemma {:induction false} RunItem(s: string, p: nat, t: Scan, es: seq<Entry>, tail: nat, vals: seq<string>)
    requires es != [] && LineOk(es) && LiesAt(s, p, ItemText(es[0].item)) && LiesAt(s, p + |ItemText(es[0].item)|, Text(es[1..], tail))
    requires p + |ItemText(es[0].item)| + |Text(es[1..], tail)| == |s|
    requires Holds(t, vals) && !t.escaped && t.quote == NUL && |t.argv| == |vals| <= 15 && (es[0].item.Word? ==> !t.inToken)
    ensures Holds(Run(s, p, t), vals + Args(es, 15 - |vals|))
    decreases |es|, 0
  {
    hide Holds, Run, Text, LiesAt, ItemText, ItemValue, ItemOk, LineOk, Apart, Args, Wrote, Redirect, Close, Cut;
    var x := es[0].item;
    var v := ItemValue(x);
    LineRest(es);
    if x.Word? && |vals| == 15 {
      RunCut(s, p, t, x, vals);
      ArgsFirst(es, 0, vals);
    } else {
      var u := if x.Word? then Wrote(t, v) else Redirect(Close(t), x.twice);
      if x.Word? { ReadWord(s, p, t, x, vals); } else { ReadArrow(s, p, t, es, tail, vals); }
      if |vals| == 15 {
        RunEnd(s, p + |ItemText(x)|, u);
        CutArrow(x);
        ArgsFirst(es, 0, vals);
      } else {
        RunLine(s, p + |ItemText(x)|, u, es[1..], tail, vals + [v]);
        ArgsFirst(es, 15 - |vals|, vals);
      }
    }
  }

  lemma ArgsFirst(es: seq<Entry>, room: nat, vals: seq<string>)
    requires es != []
    ensures room == 0 ==> Args(es, room) == [Cut(es[0].item)]
    ensures room > 0 ==> vals + Args(es, room) == vals + [ItemValue(es[0].item)] + Args(es[1..], room - 1)
  {
    hide Cut, ItemValue;
    if room > 0 { assert vals + ([ItemValue(es[0].item)] + Args(es[1..], room - 1)) == vals + [ItemValue(es[0].item)] + Args(es[1..], room - 1); }
  }

  lemma CutArrow(x: Item)
    requires x.Arrow?
    ensures Cut(x) == ItemValue(x)
  {
  }

  lemma ReadWord(s: string, p: nat, t: Scan, x: Item, vals: seq<string>)
    requires x.Word? && ItemOk(x) && LiesAt(s, p, ItemText(x))
    requires Holds(t, vals) && !t.escaped && t.quote == NUL && |t.argv| == |vals| < 15 && !t.inToken
    ensures var u := Wrote(t, ItemValue(x));
            Run(s, p, t) == Run(s, p + |ItemText(x)|, u) && Holds(u, vals + [ItemValue(x)])
            && !u.escaped && u.quote == NUL && u.inToken && |u.argv| == |vals| + 1
  {
    hide Holds, Run, LiesAt, PieceOk;
    RunPieces(s, p, t, x.ps);
    WordClean(x.ps);
    HoldsWord(t, vals, ItemValue(x), NUL, false);
  }

  lemma ReadArrow(s: string, p: nat, t: Scan, es: seq<Entry>, tail: nat, vals: seq<string>)
    requires es != [] && LineOk(es) && LiesAt(s, p, ItemText(es[0].item)) && LiesAt(s, p + |ItemText(es[0].item)|, Text(es[1..], tail))
    requires p + |ItemText(es[0].item)| + |Text(es[1..], tail)| == |s| && es[0].item.Arrow?
    requires Holds(t, vals) && !t.escaped && t.quote == NUL && |t.argv| == |vals| <= 15
    ensures var x := es[0].item; var u := Redirect(Close(t), x.twice);
            Run(s, p, t) == Run(s, p + |ItemText(x)|, u) && Holds(u, vals + [ItemValue(x)])
            && !u.escaped && u.quote == NUL && !u.inToken && |u.argv| == |vals| + 1
  {
    hide Holds, Run, Text, LiesAt, ItemOk, LineOk;
    var x := es[0].item;
    LineRest(es);
    if !x.twice { NextIsNoArrow(s, p + 1, es[1..], tail); }
    RunArrow(s, p, t, x.twice);
    HoldsClose(t, vals);
    CloseIs(t);
    HoldsArrow(Close(t), vals, x.twice);
  }

  lemma LineRest(es: seq<Entry>)
    requires es != [] && LineOk(es)
    ensures LineOk(es[1..]) && ItemOk(es[0].item)
    ensures |es| > 1 ==> ItemOk(es[1].item) && Apart(es[0].item, es[1]) && es[1..][0] == es[1]
    ensures |es| > 1 && es[0].item.Word? && es[1].item.Word? ==> es[1].gap > 0
  {
  }

  /** Every well-formed line: its items are the arguments, the first 15 in full and a 16th
      up to where it opens. */
  lemma LineArguments(es: seq<Entry>, tail: nat)
    requires LineOk(es)
    ensures var r := Run(Text(es, tail), 0, Start); var vs := Args(es, 15);
            |r.argv| == |vs| && forall i :: 0 <= i < |vs| ==> CString(r.out, r.argv[i]) == vs[i]
  {
    var s := Text(es, tail);
    assert s[0..0 + |s|] == s;
    assert Holds(Start, []);
    RunLine(s, 0, Start, es, tail, []);
    var r, vs := Run(s, 0, Start), Args(es, 15);
    assert [] + vs == vs;
    hide Run, Holds, CString;
    forall i | 0 <= i < |vs| ensures |r.argv| == |vs| && CString(r.out, r.argv[i]) == vs[i] { HoldsArgs(r, vs, i); }
    assert |r.argv| == |vs| by { ArgCount(r, vs); }
  }

  lemma ArgCount(t: Scan, vals: seq<string>)
    requires Holds(t, vals)
    ensures |t.argv| == |vals|
  {
  }

  lemma {:induction false} ArgsAt(es: seq<Entry>, room: nat, i: nat)
    ensures |Args(es, room)| == if |es| <= room then |es| else room + 1
    ensures i < |es| && i <= room ==> Args(es, room)[i] == if i < room then ItemValue(es[i].item) else Cut(es[i].item)
    decreases |es|
  {
    hide Cut, ItemValue;
    if es != [] && room > 0 { ArgsAt(es[1..], room - 1, if i == 0 then 0 else i - 1); }
  }

  /** The items of a well-formed line all come back exactly when there are at most 15, or 16
      of which the last has nothing left to read once its token is open. */
  lemma ComesBack(es: seq<Entry>, tail: nat)
    requires LineOk(es)
    ensures var r := Run(Text(es, tail), 0, Start);
            (|r.argv| == |es| && forall i :: 0 <= i < |es| ==> CString(r.out, r.argv[i]) == ItemValue(es[i].item))
            <==> (|es| <= 15 || (|es| == 16 && Cut(es[15].item) == ItemValue(es[15].item)))
  {
    hide Run, CString, Cut, ItemValue, LineOk, Text;
    LineArguments(es, tail);
    var r, vs := Run(Text(es, tail), 0, Start), Args(es, 15);
    ArgsAt(es, 15, 0);
    forall i | 0 <= i < |vs| ensures vs[i] == if i < 15 then ItemValue(es[i].item) else Cut(es[i].item) { ArgsAt(es, 15, i); }
    if |es| == 16 { assert CString(r.out, r.argv[15]) == vs[15]; }
  }

  // ---- Words as they are typed -------------------------------------------------------------

  datatype Style = Plain | Escaped | SingleQuoted | DoubleQuoted

  predicate Special(c: char) { c == ' ' || c == '>' || c == '\'' || c == '\"' || c == '\\' }

  /** A backslash in front of every special character. */
  function EscapeAll(w: string): string
  {
    if w == "" then "" else (if Special(w[0]) then ['\\', w[0]] else [w[0]]) + EscapeAll(w[1..])
  }

  /** A backslash in front of every double quote and every backslash. */
  function EscapeQuotes(w: string): string
  {
    if w == "" then "" else (if w[0] == '\"' || w[0] == '\\' then ['\\', w[0]] else [w[0]]) + EscapeQuotes(w[1..])
  }

  function Spelled(w: string, style: Style): string
  {
    match style
    case Plain => w
    case Escaped => EscapeAll(w)
    case SingleQuoted => "\'" + w + "\'"
    case DoubleQuoted => "\"" + EscapeQuotes(w) + "\""
  }

  predicate Spellable(w: string, style: Style)
  {
    && '\0' !in w
    && (style == Plain ==> w != "" && forall i :: 0 <= i < |w| ==> !Special(w[i]))
    && (style == Escaped ==> w != "")
    && (style == SingleQuoted ==> '\'' !in w)
  }

  function Bares(w: string, escape: bool): (ps: seq<Piece>)
    ensures |ps| == |w|
    ensures forall i :: 0 <= i < |w| ==> ps[i] == Bare(Ch(w[i], escape && Special(w[i])))
  {
    seq(|w|, i requires 0 <= i < |w| => Bare(Ch(w[i], escape && Special(w[i]))))
  }

  function Chs(w: string): (chs: seq<Ch>)
    ensures |chs| == |w|
    ensures forall i :: 0 <= i < |w| ==> chs[i] == Ch(w[i], w[i] == '\"' || w[i] == '\\')
  {
    seq(|w|, i requires 0 <= i < |w| => Ch(w[i], w[i] == '\"' || w[i] == '\\'))
  }

  function ItemOf(w: string, style: Style): Item
  {
    match style
    case Plain => Word(Bares(w, false))
    case Escaped => Word(Bares(w, true))
    case SingleQuoted => Word([Single(w)])
    case DoubleQuoted => Word([Double(Chs(w))])
  }

  lemma {:induction false} BaresAre(w: string, escape: bool)
    ensures WordValue(Bares(w, escape)) == w
    ensures WordText(Bares(w, escape)) == if escape then EscapeAll(w) else w
  {
    if w != "" {
      assert Bares(w, escape)[1..] == Bares(w[1..], escape);
      BaresAre(w[1..], escape);
      assert w == [w[0]] + w[1..];
    }
  }

  lemma {:induction false} ChsAre(w: string)
    ensures ChsValue(Chs(w)) == w && ChsText(Chs(w)) == EscapeQuotes(w)
  {
    if w != "" {
      assert Chs(w)[1..] == Chs(w[1..]);
      ChsAre(w[1..]);
      assert w == [w[0]] + w[1..];
    }
  }

  lemma ItemOfIs(w: string, style: Style)
    requires Spellable(w, style)
    ensures ItemOk(ItemOf(w, style)) && ItemText(ItemOf(w, style)) == Spelled(w, style) && ItemValue(ItemOf(w, style)) == w
  {
    BaresAre(w, style == Escaped);
    ChsAre(w);
    match style
    case Plain =>
    case Escaped =>
    case SingleQuoted => OnePiece(Single(w));
    case DoubleQuoted => OnePiece(Double(Chs(w)));
  }

  lemma OnePiece(p: Piece)
    ensures WordText([p]) == PieceText(p) && WordValue([p]) == PieceValue(p)
  {
    assert [p][1..] == [];
  }

  /** A word behind that many spaces. */
  datatype Typed = Typed(gap: nat, word: string, style: Style)

  function TypedText(xs: seq<Typed>, tail: nat): string
  {
    if xs == [] then Spaces(tail) else Spaces(xs[0].gap) + (Spelled(xs[0].word, xs[0].style) + TypedText(xs[1..], tail))
  }

  function Entries(xs: seq<Typed>): (es: seq<Entry>)
    ensures |es| == |xs| && forall i :: 0 <= i < |xs| ==> es[i] == Entry(xs[i].gap, ItemOf(xs[i].word, xs[i].style))
  {
    seq(|xs|, i requires 0 <= i < |xs| => Entry(xs[i].gap, ItemOf(xs[i].word, xs[i].style)))
  }

  lemma {:induction false} EntriesText(xs: seq<Typed>, tail: nat)
    requires forall i :: 0 <= i < |xs| ==> Spellable(xs[i].word, xs[i].style)
    ensures Text(Entries(xs), tail) == TypedText(xs, tail)
  {
    hide ItemOf, Spelled, ItemText, Spellable;
    if xs != [] {
      ItemOfIs(xs[0].word, xs[0].style);
      assert Entries(xs)[1..] == Entries(xs[1..]);
      EntriesText(xs[1..], tail);
    }
  }

  /** Up to 15 words, each spelled in any of the four ways, with one or more spaces between
      them: the arguments are the words. */
  lemma WordsComeBack(xs: seq<Typed>, tail: nat)
    requires |xs| <= 15 && (forall i :: 0 <= i < |xs| ==> Spellable(xs[i].word, xs[i].style))
    requires forall i :: 0 < i < |xs| ==> xs[i].gap > 0
    ensures var r := Run(TypedText(xs, tail), 0, Start);
            |r.argv| == |xs| && forall i :: 0 <= i < |xs| ==> CString(r.out, r.argv[i]) == xs[i].word
  {
    hide ItemOf, Spelled, ItemText, ItemValue, Spellable, ItemOk, Run, CString, Text, TypedText, Cut;
    var es := Entries(xs);
    forall i | 0 <= i < |xs| ensures ItemOk(es[i].item) && ItemValue(es[i].item) == xs[i].word {
      ItemOfIs(xs[i].word, xs[i].style);
    }
    EntriesText(xs, tail);
    ComesBack(es, tail);
  }

  /** a>b and a>>b, spaces around the sign or none: three arguments. */
  lemma Redirections(a: Typed, b: Typed, before: nat, twice: bool, tail: nat)
    requires Spellable(a.word, a.style) && Spellable(b.word, b.style)
    ensures var s := Spaces(a.gap) + (Spelled(a.word, a.style) + (Spaces(before) + ((if twice then ">>" else ">")
                     + (Spaces(b.gap) + (Spelled(b.word, b.style) + Spaces(tail))))));
            var r := Run(s, 0, Start);
            |r.argv| == 3 && CString(r.out, r.argv[0]) == a.word && CString(r.out, r.argv[2]) == b.word
            && CString(r.out, r.argv[1]) == if twice then ">>" else ">"
  {
    hide Spelled, Spellable, ItemOk, Run, CString, Cut;
    var x, y := ItemOf(a.word, a.style), ItemOf(b.word, b.style);
    var es := [Entry(a.gap, x), Entry(before, Arrow(twice)), Entry(b.gap, y)];
    ItemOfIs(a.word, a.style);
    ItemOfIs(b.word, b.style);
    assert ItemOk(Arrow(twice)) by { ArrowOk(twice); }
    assert es[1..] == [es[1], es[2]] && es[1..][1..] == [es[2]] && es[1..][1..][1..] == [];
    ComesBack(es, tail);
    assert ItemValue(es[1].item) == if twice then ">>" else ">";
    assert Text(es[1..][1..], tail) == Spaces(b.gap) + (ItemText(y) + Spaces(tail));
  }

  lemma ArrowOk(twice: bool)
    ensures ItemOk(Arrow(twice))
  {
  }

  /** Plain words with nothing between them and the sign. */
  lemma PlainRedirections(a: string, b: string)
    requires Spellable(a, Plain) && Spellable(b, Plain)
    ensures var r := Run(a + ">" + b, 0, Start);
            |r.argv| == 3 && CString(r.out, r.argv[0]) == a && CString(r.out, r.argv[1]) == ">" && CString(r.out, r.argv[2]) == b
    ensures var r := Run(a + ">>" + b, 0, Start);
            |r.argv| == 3 && CString(r.out, r.argv[0]) == a && CString(r.out, r.argv[1]) == ">>" && CString(r.out, r.argv[2]) == b
  {
    hide Run, CString, Spellable;
    Redirections(Typed(0, a, Plain), Typed(0, b, Plain), 0, false, 0);
    Redirections(Typed(0, a, Plain), Typed(0, b, Plain), 0, true, 0);
    var e := Spaces(0);
    assert a + ">" + b == e + (a + (e + (">" + (e + (b + e)))));
    assert a + ">>" + b == e + (a + (e + (">>" + (e + (b + e)))));
  }
}
