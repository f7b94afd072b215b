/**
 Single-quoting words and tokenizing them again.
 */
module Quoting {
  import opened Tokenizer

  predicate Word(w: string) { QUOTE !in w && NUL !in w }

  function Quote(w: string): string { [QUOTE] + w + [QUOTE] }

  /** The words in single quotes, joined by spaces. */
  function Render(ws: seq<string>): string
  {
    if ws == [] then "" else if |ws| == 1 then Quote(ws[0]) else Quote(ws[0]) + " " + Render(ws[1..])
  }

  /** The buffer the words leave, and where each starts. */
  function Joined(ws: seq<string>): string
  {
    if ws == [] then "" else if |ws| == 1 then ws[0] else ws[0] + [NUL] + Joined(ws[1..])
  }

  function Offsets(o: nat, ws: seq<string>): seq<nat>
    decreases |ws|
  {
    if ws == [] then [] else [o] + Offsets(o + |ws[0]| + 1, ws[1..])
  }

  /** The C string at o of a buffer followed by zeros. */
  function CString(b: string, o: nat): string
    decreases |b| - o
  {
    if o >= |b| || b[o] == NUL then "" else [b[o]] + CString(b, o + 1)
  }

  /** With room for that many more words, what is left of ws: the scan stops as soon as
      the 16th argument opens, so that one is empty and the rest are not read. */
  function Kept(ws: seq<string>, room: nat): seq<string>
  {
    if |ws| <= room then ws else ws[..room] + [""]
  }

  /** The arguments found are the words. */
  predicate ComesBack(ws: seq<string>)
  {
    var r := Run(Render(ws), 0, Start);
    |r.argv| == |ws| && forall i :: 0 <= i < |ws| ==> CString(r.out, r.argv[i]) == ws[i]
  }

  /** A list of words without a single quote or NUL comes back exactly when there are at
      most 15 of them, or 16 with the last one empty. */
  lemma {:induction false} RoundTrip(ws: seq<string>)
    requires forall i :: 0 <= i < |ws| ==> Word(ws[i])
    ensures ComesBack(ws) <==> |ws| <= 15 || (|ws| == 16 && ws[15] == "")
  {
    Arguments(ws);
    var r := Run(Render(ws), 0, Start);
    var ks := Kept(ws, 15);
    if |ws| == MAX_ARGS {
      assert CString(r.out, r.argv[MAX_ARGS - 1]) == ks[MAX_ARGS - 1] == "";
    }
  }

  /** Every list, however long: the first 15 words are the first 15 arguments, and a
      16th argument is empty. */
  lemma {:induction false} Arguments(ws: seq<string>)
    requires forall i :: 0 <= i < |ws| ==> Word(ws[i])
    ensures var r := Run(Render(ws), 0, Start); var ks := Kept(ws, 15);
            |r.argv| == |ks| && forall i :: 0 <= i < |ks| ==> CString(r.out, r.argv[i]) == ks[i]
  {
    hide Run, Render, Joined, Offsets, CString, Kept, Word;
    var s := Render(ws);
    assert s[0..] == s;
    KeptWords(ws, MAX_ARGS - 1);
    RunWords(s, 0, Start, ws);
    var r := Run(s, 0, Start);
    var ks := Kept(ws, 15);
    assert r.out == "" + Joined(ks) && r.argv == [] + Offsets(0, ks);
    forall i | 0 <= i < |ks| ensures i < |r.argv| && CString(r.out, r.argv[i]) == ks[i] {
      ArgIs("", ks, i);
    }
    OffsetCount(0, ks);
  }

  lemma KeptWords(ws: seq<string>, room: nat)
    requires forall i :: 0 <= i < |ws| ==> Word(ws[i])
    ensures forall i :: 0 <= i < |Kept(ws, room)| ==> Word(Kept(ws, room)[i])
  {
  }

  lemma {:induction false} OffsetCount(o: nat, ws: seq<string>)
    ensures |Offsets(o, ws)| == |ws|
    decreases |ws|
  {
    if ws != [] { OffsetCount(o + |ws[0]| + 1, ws[1..]); }
  }

  /** Between two tokens, with nothing pending. */
  predicate Clean(t: Scan) { !t.inToken && !t.escaped && t.quote == NUL }

  lemma {:induction false} RunWords(s: string, p: nat, t: Scan, ws: seq<string>)
    requires p <= |s| && s[p..] == Render(ws) && Clean(t) && |t.argv| < MAX_ARGS
    requires forall i :: 0 <= i < |ws| ==> Word(ws[i])
    ensures var r := Run(s, p, t); var ks := Kept(ws, MAX_ARGS - 1 - |t.argv|);
            r.out == t.out + Joined(ks) && r.argv == t.argv + Offsets(|t.out|, ks)
    decreases |ws|
  {
    hide Step, Takes2, Run, Render, Joined, Offsets, Quote, Kept;
    RenderIs(ws);
    KeptIs(ws, MAX_ARGS - 1 - |t.argv|);
    var ks := Kept(ws, MAX_ARGS - 1 - |t.argv|);
    JoinedIs(t.out, ks);
    OffsetsIs(t.argv, |t.out|, ks);
    if ws == [] {
      RunEnd(s, p, t);
    } else if |t.argv| == MAX_ARGS - 1 {
      Opened(s, p, ws);
      RunLast(s, p, t);
    } else {
      var w := ws[0];
      var u := Scan(t.out + w, t.argv + [|t.out|], NUL, false, true);
      var q := p + |w| + 2;
      if |ws| == 1 {
        Prefix(s, p, Quote(w), "");
        RunQuoted(s, p, t, w);
        RunEnd(s, q, u);
      } else {
        Prefix(s, p, Quote(w), " " + Render(ws[1..]));
        RunQuoted(s, p, t, w);
        Prefix(s, q, " ", Render(ws[1..]));
        assert s[q] == s[q..q + 1][0];
        RunSpace(s, q, u);
        RunWords(s, q + 1, Scan(u.out + [NUL], u.argv, NUL, false, false), ws[1..]);
      }
    }
  }

  lemma KeptIs(ws: seq<string>, room: nat)
    ensures ws == [] ==> Kept(ws, room) == []
    ensures ws != [] && room == 0 ==> Kept(ws, room) == [""]
    ensures ws != [] && room > 0 ==>
              var ks := Kept(ws, room); ks != [] && ks[0] == ws[0] && ks[1..] == Kept(ws[1..], room - 1)
    ensures ws != [] && room > 0 ==> (|Kept(ws, room)| == 1 <==> |ws| == 1)
  {
  }

  lemma Opened(s: string, p: nat, ws: seq<string>)
    requires p <= |s| && s[p..] == Render(ws) && ws != []
    ensures p < |s| && s[p] == QUOTE
  {
    assert Render(ws)[0] == QUOTE;
  }

  lemma {:induction false} RenderIs(ws: seq<string>)
    ensures ws == [] ==> Render(ws) == ""
    ensures ws != [] ==> |Quote(ws[0])| == |ws[0]| + 2
    ensures |ws| == 1 ==> Render(ws) == Quote(ws[0]) + ""
    ensures |ws| > 1 ==> Render(ws) == Quote(ws[0]) + (" " + Render(ws[1..]))
  {
    if |ws| > 1 { assert Quote(ws[0]) + " " + Render(ws[1..]) == Quote(ws[0]) + (" " + Render(ws[1..])); }
  }

  lemma {:induction false} JoinedIs(out: string, ws: seq<string>)
    ensures ws == [] ==> out + Joined(ws) == out
    ensures |ws| == 1 ==> out + Joined(ws) == out + ws[0]
    ensures |ws| > 1 ==> out + Joined(ws) == out + ws[0] + [NUL] + Joined(ws[1..])
  {
    if |ws| > 1 { assert out + (ws[0] + [NUL] + Joined(ws[1..])) == out + ws[0] + [NUL] + Joined(ws[1..]); }
  }

  lemma {:induction false} OffsetsIs(argv: seq<nat>, o: nat, ws: seq<string>)
    ensures ws == [] ==> argv + Offsets(o, ws) == argv
    ensures |ws| == 1 ==> argv + Offsets(o, ws) == argv + [o]
    ensures |ws| > 1 ==> argv + Offsets(o, ws) == argv + [o] + Offsets(o + |ws[0]| + 1, ws[1..])
  {
    if |ws| == 1 {
      assert ws[1..] == [] && Offsets(o, ws) == [o] + [];
    } else if |ws| > 1 {
      assert argv + ([o] + Offsets(o + |ws[0]| + 1, ws[1..])) == argv + [o] + Offsets(o + |ws[0]| + 1, ws[1..]);
    }
  }

  lemma Prefix(s: string, p: nat, a: string, b: string)
    requires p <= |s| && s[p..] == a + b
    ensures p + |a| <= |s| && s[p..p + |a|] == a && s[p + |a|..] == b
  {
    assert s[p..p + |a|] == s[p..][..|a|];
    assert s[p + |a|..] == s[p..][|a|..];
  }

  lemma RunSpace(s: string, p: nat, u: Scan)
    requires p < |s| && s[p] == ' ' && u.inToken && !u.escaped && u.quote == NUL && |u.argv| < MAX_ARGS
    ensures Run(s, p, u) == Run(s, p + 1, Scan(u.out + [NUL], u.argv, NUL, false, false))
  {
    RunStep(s, p, u);
  }

  /** A quoted word between tokens becomes an open token. */
  lemma RunQuoted(s: string, p: nat, t: Scan, w: string)
    requires p + |w| + 2 <= |s| && s[p..p + |w| + 2] == Quote(w) && Word(w) && Clean(t) && |t.argv| + 1 < MAX_ARGS
    ensures Run(s, p, t) == Run(s, p + |w| + 2, Scan(t.out + w, t.argv + [|t.out|], NUL, false, true))
  {
    var e := s[p..p + |w| + 2];
    assert s[p] == e[0] == QUOTE && s[p + |w| + 1] == e[|w| + 1] == QUOTE;
    forall i | 0 <= i < |w| ensures s[p + 1 + i] == w[i] { assert e[1 + i] == w[i]; }
    RunStep(s, p, t);
    var a := Scan(t.out, t.argv + [|t.out|], QUOTE, false, true);
    assert Step(t, QUOTE, false) == a;
    InQuotes(s, p + 1, a, w);
    var b := Scan(t.out + w, t.argv + [|t.out|], QUOTE, false, true);
    RunStep(s, p + 1 + |w|, b);
    assert Step(b, QUOTE, false) == b.(quote := NUL);
  }

  lemma {:induction false} InQuotes(s: string, p: nat, a: Scan, w: string)
    requires p + |w| <= |s| && (forall i :: 0 <= i < |w| ==> s[p + i] == w[i]) && QUOTE !in w
    requires a.quote == QUOTE && !a.escaped && a.inToken && |a.argv| < MAX_ARGS
    ensures Run(s, p, a) == Run(s, p + |w|, a.(out := a.out + w))
    decreases |w|
  {
    if w == "" {
      assert a.out + w == a.out;
    } else {
      assert s[p + 0] == w[0];
      RunStep(s, p, a);
      var b := a.(out := a.out + [w[0]]);
      assert Step(a, w[0], false) == b;
      forall i | 0 <= i < |w[1..]| ensures s[p + 1 + i] == w[1..][i] { assert s[p + (i + 1)] == w[i + 1]; }
      InQuotes(s, p + 1, b, w[1..]);
      assert a.out + w == b.out + w[1..];
    }
  }

  lemma {:induction false} ArgIs(pre: string, ws: seq<string>, i: nat)
    requires i < |ws| && forall j :: 0 <= j < |ws| ==> Word(ws[j])
    ensures i < |Offsets(|pre|, ws)| && CString(pre + Joined(ws), Offsets(|pre|, ws)[i]) == ws[i]
    decreases |ws|
  {
    hide Joined, Offsets, CString;
    OffsetsAt(|pre|, ws, i);
    if i == 0 {
      FirstArg(pre, ws);
    } else {
      JoinedIs(pre, ws);
      ArgIs(pre + ws[0] + [NUL], ws[1..], i - 1);
    }
  }

  lemma OffsetsAt(o: nat, ws: seq<string>, i: nat)
    requires i < |ws|
    ensures var rest := Offsets(o + |ws[0]| + 1, ws[1..]);
            |Offsets(o, ws)| == 1 + |rest| && (i <= |rest| ==> Offsets(o, ws)[i] == if i == 0 then o else rest[i - 1])
  {
  }

  lemma FirstArg(pre: string, ws: seq<string>)
    requires ws != [] && Word(ws[0])
    ensures CString(pre + Joined(ws), |pre|) == ws[0]
  {
    var rest := if |ws| == 1 then "" else [NUL] + Joined(ws[1..]);
    assert Joined(ws) == ws[0] + rest;
    hide Joined, CString;
    assert pre + Joined(ws) == pre + ws[0] + rest;
    StringAt(pre, ws[0], rest);
  }

  lemma {:induction false} StringAt(pre: string, w: string, rest: string)
    requires NUL !in w && (rest == "" || rest[0] == NUL)
    ensures CString(pre + w + rest, |pre|) == w
    decreases |w|
  {
    var b := pre + w + rest;
    if w == "" {
      assert rest != "" ==> b[|pre|] == rest[0];
    } else {
      assert b[|pre|] == w[0];
      var pre1 := pre + [w[0]];
      assert b == pre1 + w[1..] + rest;
      StringAt(pre1, w[1..], rest);
    }
  }

  /** The 16th argument ends the scan as soon as it opens. */
  lemma RunLast(s: string, p: nat, t: Scan)
    requires p < |s| && s[p] == QUOTE && Clean(t) && |t.argv| == MAX_ARGS - 1
    ensures Run(s, p, t) == Scan(t.out, t.argv + [|t.out|], QUOTE, false, true)
  {
    RunStep(s, p, t);
    var a := Scan(t.out, t.argv + [|t.out|], QUOTE, false, true);
    assert Step(t, QUOTE, false) == a;
    RunEnd(s, p + 1, a);
  }
}
