/**
 The command-line tokenizer of shell/shell_core.c: quotes, backslashes and
 redirections, written into one zeroed buffer with arguments as offsets.
 */
module Tokenizer {
  const MAX_ARGS: nat := 16
  const NUL: char := '\0'
  const QUOTE: char := '\''
  const DQUOTE: char := '\"'
  const BACKSLASH: char := '\\'

  /** Bytes written, offsets of the arguments, open quote or NUL, pending backslash,
      inside a token. */
  datatype Scan = Scan(out: string, argv: seq<nat>, quote: char, escaped: bool, inToken: bool)

  const Start := Scan("", [], NUL, false, false)

  /** argv[argc++] = w unless a token is open. */
  function Open(t: Scan): Scan
  {
    if t.inToken then t else t.(argv := t.argv + [|t.out|], inToken := true)
  }

  function Put(t: Scan, c: char): Scan { t.(out := t.out + [c]) }

  function Close(t: Scan): Scan { if t.inToken then Put(t, NUL).(inToken := false) else t }

  /** > or >> as an argument of its own. */
  function Redirect(t: Scan, twice: bool): (r: Scan)
    ensures |r.out| > |t.out|
  {
    var v := Put(t.(argv := t.argv + [|t.out|]), '>');
    Put(if twice then Put(v, '>') else v, NUL)
  }

  /** What one round of the loop does with character c; a second '>' follows if twice. */
  function Step(t: Scan, c: char, twice: bool): Scan
  {
    if t.escaped then Put(Open(t), c).(escaped := false)
    else if c == BACKSLASH && t.quote != QUOTE then t.(escaped := true)
    else if t.quote != NUL then (if c == t.quote then t.(quote := NUL) else Put(Open(t), c))
    else if c == DQUOTE || c == QUOTE then Open(t.(quote := c))
    else if c == ' ' then Close(t)
    else if c == '>' then
      Redirect(Close(t), twice)
    else Put(Open(t), c)
  }

  /** The round takes two characters. */
  predicate Takes2(t: Scan, s: string, p: nat)
  {
    p + 1 < |s| && !t.escaped && t.quote == NUL && s[p] == '>' && s[p + 1] == '>'
  }

  function Run(s: string, p: nat, t: Scan): Scan
    requires p <= |s|
    decreases |s| - p
  {
    if p == |s| || |t.argv| >= MAX_ARGS then t
    else if Takes2(t, s, p) then Run(s, p + 2, Step(t, s[p], true))
    else Run(s, p + 1, Step(t, s[p], false))
  }

  // ---- The buffer bound and the arguments ------------------------------------------------

  /** Bytes written, and the terminator an open token still needs, are within the
      budget; the arguments ascend, and each but the first starts behind a terminator. */
  ghost predicate ScanOk(t: Scan, budget: nat)
  {
    ( && |t.out| + (if t.inToken then 1 else 0) <= budget
      && |t.argv| <= MAX_ARGS
      && (t.inToken ==> t.argv != [])
      && (!t.inToken && t.argv != [] ==> t.out != "" && t.out[|t.out| - 1] == NUL)
      && (t.argv == [] ==> t.out == "")
      && (forall i :: 0 <= i < |t.argv| ==> t.argv[i] <= |t.out| && (t.inToken || t.argv[i] < |t.out|))
      && (forall i, j :: 0 <= i < j < |t.argv| ==> t.argv[i] < t.argv[j])
      && (forall i :: 0 < i < |t.argv| ==> 0 < t.argv[i] && t.out[t.argv[i] - 1] == NUL)) == true
  }

  lemma OpenOk(t: Scan, b: nat)
    requires ScanOk(t, b) && |t.argv| < MAX_ARGS
    ensures Open(t).inToken && ScanOk(Open(t), b + 1)
  {
  }

  lemma PutOk(t: Scan, b: nat, c: char)
    requires ScanOk(t, b) && t.inToken
    ensures ScanOk(Put(t, c), b + 1)
  {
  }

  lemma CloseOk(t: Scan, b: nat)
    requires ScanOk(t, b)
    ensures ScanOk(Close(t), b) && !Close(t).inToken && Close(t).argv == t.argv
  {
  }

  /** A redirection is an argument of its own. */
  lemma RedirectOk(t: Scan, b: nat, twice: bool)
    requires ScanOk(t, b) && !t.inToken && |t.argv| < MAX_ARGS
    ensures ScanOk(Redirect(t, twice), if twice then b + 3 else b + 2)
  {
  }

  /** Flags play no part in the bound. */
  lemma FlagsOk(t: Scan, b: nat, quote: char, escaped: bool)
    requires ScanOk(t, b)
    ensures ScanOk(t.(quote := quote, escaped := escaped), b)
  {
  }

  /** An ordinary character joins the open token or opens one. */
  lemma TakenOk(t: Scan, b: nat, c: char, escaped: bool)
    requires ScanOk(t, b) && |t.argv| < MAX_ARGS
    ensures ScanOk(Put(Open(t), c), b + 2) && ScanOk(Put(Open(t), c).(escaped := escaped), b + 2)
  {
    hide ScanOk, Open, Put;
    OpenOk(t, b);
    PutOk(Open(t), b + 1, c);
    var u := Put(Open(t), c);
    FlagsOk(u, b + 2, u.quote, escaped);
  }

  /** A backslash or a closing quote writes nothing. */
  lemma FlaggedOk(t: Scan, b: nat, quote: char, escaped: bool)
    requires ScanOk(t, b)
    ensures ScanOk(t.(quote := quote, escaped := escaped), b + 2)
  {
    hide ScanOk;
    FlagsOk(t, b, quote, escaped);
    More(t.(quote := quote, escaped := escaped), b, b + 2);
  }

  /** An opening quote opens a token. */
  lemma QuoteOk(t: Scan, b: nat, quote: char)
    requires ScanOk(t, b) && |t.argv| < MAX_ARGS
    ensures ScanOk(Open(t.(quote := quote)), b + 2)
  {
    hide ScanOk, Open;
    FlagsOk(t, b, quote, t.escaped);
    OpenOk(t.(quote := quote), b);
    More(Open(t.(quote := quote)), b + 1, b + 2);
  }

  /** A space ends the token. */
  lemma SpaceOk(t: Scan, b: nat)
    requires ScanOk(t, b)
    ensures ScanOk(Close(t), b + 2)
  {
    hide ScanOk, Close;
    CloseOk(t, b);
    More(Close(t), b, b + 2);
  }

  lemma StepOk(t: Scan, b: nat, c: char, twice: bool)
    requires ScanOk(t, b) && |t.argv| < MAX_ARGS
    requires twice ==> c == '>' && !t.escaped && t.quote == NUL
    ensures ScanOk(Step(t, c, twice), if twice then b + 4 else b + 2)
  {
    hide ScanOk, Open, Close, Put, Redirect;
    if t.escaped {
      TakenOk(t, b, c, false);
    } else if c == BACKSLASH && t.quote != QUOTE {
      FlaggedOk(t, b, t.quote, true);
    } else if t.quote != NUL {
      if c == t.quote { FlaggedOk(t, b, NUL, false); } else { TakenOk(t, b, c, t.escaped); }
    } else if c == DQUOTE || c == QUOTE {
      QuoteOk(t, b, c);
    } else if c == ' ' {
      SpaceOk(t, b);
    } else if c == '>' {
      CloseOk(t, b);
      RedirectOk(Close(t), b, twice);
      if twice { More(Step(t, c, twice), b + 3, b + 4); }
    } else {
      TakenOk(t, b, c, t.escaped);
    }
  }

  /** For every line at most 2 * strlen bytes are written, the last terminator
      included, and at most 16 arguments found, in ascending order, each behind the
      terminator of the one before. */
  lemma {:induction false} RunOk(s: string, p: nat, t: Scan)
    requires p <= |s| && ScanOk(t, 2 * p)
    ensures ScanOk(Run(s, p, t), 2 * |s|)
    decreases |s| - p
  {
    hide Step, ScanOk;
    if p == |s| || |t.argv| >= MAX_ARGS {
      More(t, 2 * p, 2 * |s|);
    } else if Takes2(t, s, p) {
      StepOk(t, 2 * p, s[p], true);
      RunOk(s, p + 2, Step(t, s[p], true));
    } else {
      StepOk(t, 2 * p, s[p], false);
      RunOk(s, p + 1, Step(t, s[p], false));
    }
  }

  lemma More(t: Scan, p: nat, q: nat)
    requires ScanOk(t, p) && p <= q
    ensures ScanOk(t, q)
  {
  }

  // ---- The loop -------------------------------------------------------------------------

  class Lexer {
    const out: array<char>
    const argv: array<nat>
    var w: nat
    var argc: nat
    var quote: char
    var escaped: bool
    var inToken: bool

    ghost predicate Shape()
      reads this, out
    {
      && argv.Length == MAX_ARGS && argc <= MAX_ARGS && w <= out.Length
      && forall i :: w <= i < out.Length ==> out[i] == NUL
    }

    ghost function View(): Scan
      requires Shape()
      reads this, out, argv
    {
      Scan(out[..w], argv[..argc], quote, escaped, inToken)
    }

    /** The zeroed buffer for a line of n characters. */
    constructor (n: nat)
      ensures Shape() && View() == Start && out.Length == 2 * n + 1 && fresh(out) && fresh(argv)
    {
      out := new char[2 * n + 1](_ => NUL);
      argv := new nat[MAX_ARGS](_ => 0);
      w, argc, quote, escaped, inToken := 0, 0, NUL, false, false;
    }

    /** *w++ = c. */
    method Emit(c: char)
      requires Shape() && w < out.Length
      modifies this`w, out
      ensures Shape() && View() == Put(old(View()), c)
    {
      out[w] := c;
      w := w + 1;
    }

    /** argv[argc++] = w. */
    method NewArg()
      requires Shape() && argc < MAX_ARGS
      modifies this`argc, argv
      ensures Shape() && View() == old(View()).(argv := old(View()).argv + [|old(View()).out|])
    {
      argv[argc] := w;
      argc := argc + 1;
    }

    method OpenToken()
      requires Shape() && argc < MAX_ARGS
      modifies this`argc, this`inToken, argv
      ensures Shape() && View() == Open(old(View()))
    {
      if !inToken {
        NewArg();
        inToken := true;
      }
    }

    method CloseToken()
      requires Shape() && (inToken ==> w < out.Length)
      modifies this`w, this`inToken, out
      ensures Shape() && View() == Close(old(View()))
    {
      if inToken {
        Emit(NUL);
        inToken := false;
      }
    }

    /** The argument for a redirection. */
    method EmitRedirect(twice: bool)
      requires Shape() && argc < MAX_ARGS && |Redirect(View(), twice).out| <= out.Length
      modifies this`w, this`argc, out, argv
      ensures Shape() && View() == Redirect(old(View()), twice)
    {
      NewArg();
      Emit('>');
      if twice {
        Emit('>');
      }
      Emit(NUL);
    }

    /** One round of the loop at character p; taken is how many characters it read. */
    method Round(line: string, p: nat) returns (taken: nat)
      requires Shape() && p < |line| && argc < MAX_ARGS
      requires |Step(View(), line[p], Takes2(View(), line, p)).out| <= out.Length
      modifies this, out, argv
      ensures Shape() && taken == if Takes2(old(View()), line, p) then 2 else 1
      ensures View() == Step(old(View()), line[p], Takes2(old(View()), line, p))
    {
      hide Redirect;
      var c := line[p];
      taken := 1;
      if escaped {
        OpenToken();
        Emit(c);
        escaped := false;
      } else if c == BACKSLASH && quote != QUOTE {
        escaped := true;
      } else if quote != NUL {
        if c == quote {
          quote := NUL;
        } else {
          OpenToken();
          Emit(c);
        }
      } else if c == DQUOTE || c == QUOTE {
        quote := c;
        OpenToken();
      } else if c == ' ' {
        CloseToken();
      } else if c == '>' {
        CloseToken();
        var twice := p + 1 < |line| && line[p + 1] == '>';
        EmitRedirect(twice);
        taken := if twice then 2 else 1;
      } else {
        OpenToken();
        Emit(c);
      }
    }
  }

  /** The tokenizer: what is in the buffer is what the scan wrote, then zeros. */
  method Tokenize(line: string) returns (x: Lexer)
    ensures fresh(x) && x.Shape() && x.View() == Run(line, 0, Start) && x.out.Length == 2 * |line| + 1 && x.w < x.out.Length
  {
    hide ScanOk, Step, Run, Takes2;
    x := new Lexer(|line|);
    var p := 0;
    StartOk();
    while p < |line| && x.argc < MAX_ARGS
      invariant fresh(x) && fresh(x.out) && fresh(x.argv) && x.Shape() && x.out.Length == 2 * |line| + 1
      invariant p <= |line| && ScanOk(x.View(), 2 * p) && Run(line, p, x.View()) == Run(line, 0, Start)
    {
      RunStep(line, p, x.View());
      ghost var twice := Takes2(x.View(), line, p);
      StepOk(x.View(), 2 * p, line[p], twice);
      Bound(Step(x.View(), line[p], twice), if twice then 2 * p + 4 else 2 * p + 2);
      var taken := x.Round(line, p);
      p := p + taken;
    }
    RunEnd(line, p, x.View());
    RunOk(line, 0, Start);
    Bound(x.View(), 2 * |line|);
    if x.inToken {
      x.out[x.w] := NUL;
    }
  }

  lemma StartOk()
    ensures ScanOk(Start, 0)
  {
  }

  lemma RunStep(s: string, p: nat, t: Scan)
    requires p < |s| && |t.argv| < MAX_ARGS
    ensures Takes2(t, s, p) ==> p + 2 <= |s| && s[p] == '>' && !t.escaped && t.quote == NUL
    ensures Run(s, p, t) == if Takes2(t, s, p) then Run(s, p + 2, Step(t, s[p], true)) else Run(s, p + 1, Step(t, s[p], false))
  {
  }

  lemma RunEnd(s: string, p: nat, t: Scan)
    requires p == |s| || (p < |s| && |t.argv| >= MAX_ARGS)
    ensures Run(s, p, t) == t
  {
  }

  lemma Bound(t: Scan, b: nat)
    requires ScanOk(t, b)
    ensures |t.out| + (if t.inToken then 1 else 0) <= b
  {
  }
}
