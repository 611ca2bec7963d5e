/** lx_word itself: a cursor and flags that move as it scans, text kept in a buffer until its quoting changes. */
module WordLexer {
  import opened Bits
  import opened CText
  import opened Quoting
  import opened Lexer
  import opened QuotingRoundTrip

  class Scanner {
    var p: string
    var parts: seq<Part>
    var b: string
    var cq: bool
    var q: bool
    var seen: bool
    var gd: int
    var more: bool
    const e: Around

    constructor (p: string, e: Around)
      ensures State() == Lx(p, [], "", false, false, false, 0, false) && this.e == e
    {
      this.p, this.e := p, e;
      parts, b, cq, q, seen, gd, more := [], "", false, false, false, 0, false;
    }

    ghost function State(): Lx
      reads this
    {
      Lx(p, parts, b, cq, q, seen, gd, more)
    }

    /** lx_flush. */
    method TakeFlush()
      modifies this`parts, this`b
      ensures State() == Flush(old(State()))
    {
      if b == "" { return; }
      parts := parts + [Txt(cq, b)];
      b := "";
    }

    /** lx_ch. */
    method Add(quoted: bool, c: char)
      modifies this`parts, this`b, this`cq
      ensures State() == Put(old(State()), quoted, c)
    {
      if b != "" && cq != quoted { TakeFlush(); }
      cq := quoted;
      b := b + [c];
    }

    method AddAll(s: string)
      modifies this`parts, this`b, this`cq
      ensures State() == PutAll(old(State()), true, s)
    {
      hide Put;
      var t := s;
      while t != ""
        invariant PutAll(State(), true, t) == PutAll(old(State()), true, s)
        decreases |t|
      {
        Add(true, t[0]);
        t := t[1..];
      }
    }

    method Advance(n: nat)
      modifies this`p
      ensures State() == Lexer.Drop(old(State()), n)
    {
      p := if n <= |p| then p[n..] else "";
    }

    /** Single quotes, up to the one that closes them: true when one does. */
    method TakeSingle() returns (closed: bool)
      modifies this`p, this`parts, this`b, this`cq, this`more
      ensures closed ==> Single(old(State()), e) == Lex(State(), e) && |p| <= |old(p)|
      ensures !closed ==> Single(old(State()), e) == State()
    {
      hide Put, Lex;
      ghost var l := State();
      while p != "" && p[0] != '\''
        invariant Single(State(), e) == Single(l, e) && |p| <= |old(p)|
        decreases |p|
      {
        SingleTakes(State(), e);
        Add(true, p[0]);
        p := p[1..];
      }
      if p == "" {
        more := true;
        return false;
      }
      SingleEnds(State(), e);
      Advance(1);
      return true;
    }

    /** `$'...'`, up to the quote that closes it. */
    method TakeAnsi() returns (closed: bool)
      modifies this`p, this`parts, this`b, this`cq, this`more
      ensures closed ==> Lexer.Ansi(old(State()), e) == Lex(State(), e) && |p| <= |old(p)|
      ensures !closed ==> Lexer.Ansi(old(State()), e) == State()
    {
      hide Put, PutAll, Lex, Lexer.Escape, Lexer.Ansi;
      ghost var l := State();
      while p != "" && p[0] != '\''
        invariant Lexer.Ansi(State(), e) == Lexer.Ansi(l, e) && |p| <= |old(p)|
        decreases |p|
      {
        if p[0] != '\\' {
          AnsiTakes(State(), e);
          Add(true, p[0]);
          p := p[1..];
        } else {
          var ok := AnsiEscape();
          if !ok { return false; }
        }
      }
      AnsiStops(State(), e);
      if p == "" {
        more := true;
        return false;
      }
      Advance(1);
      return true;
    }

    /** A backslash between `$'` and `'`. */
    method AnsiEscape() returns (ok: bool)
      requires p != "" && p[0] == '\\'
      modifies this`p, this`parts, this`b, this`cq, this`more
      ensures ok ==> Lexer.Ansi(old(State()), e) == Lexer.Ansi(State(), e) && |p| < |old(p)|
      ensures !ok ==> Lexer.Ansi(old(State()), e) == State()
    {
      hide Put, PutAll, Lexer.Escape, Lexer.Ansi;
      AnsiSlash(State(), e);
      p := p[1..];
      if p == "" {
        more := true;
        return false;
      }
      EscapeFits(p);
      var s, rest := TakeEscape(p);
      AddAll(s);
      p := rest;
      return true;
    }

    /** An expansion, as a part of its own: false when it is not complete. */
    method TakeExpansion(sub: bool) returns (ok: bool)
      requires p != ""
      modifies this`p, this`parts, this`b, this`seen, this`more
      ensures ok ==> Expand(old(State()), e, sub) == Lex(State(), e) && |p| < |old(p)|
      ensures !ok ==> Expand(old(State()), e, sub) == State()
    {
      hide Lex, Flush;
      FlushKeeps(State());
      TakeFlush();
      var n := e.exp(p);
      if n.None? {
        more := true;
        return false;
      }
      parts := parts + [Exp];
      seen := seen || sub;
      Advance(n.value + 1);
      return true;
    }

    /** One turn of lx_word's loop: false when the word ends here. */
    method Turn() returns (goes: bool)
      requires p != ""
      modifies this
      ensures goes ==> Lex(old(State()), e) == Lex(State(), e) && |p| < |old(p)|
      ensures !goes ==> Lex(old(State()), e) == State()
    {
      hide Single, Lexer.Ansi, Expand, Put, Lex, Ordinary;
      LexStep(State(), e);
      var c, d := p[0], Ch(p, 1);
      if !q && (c == '<' || c == '>') && d == '(' {
        goes := TakeSubstitution();
        return;
      }
      if !q && c == '\n' { return false; }
      if !q && d == '(' && c in "?*+@!" && e.closes(p[2..]) {
        OpenGroup(c);
        return true;
      }
      if !q && gd != 0 && (c == ' ' || c == '\t' || Meta(c)) {
        InGroup(c);
        return true;
      }
      if !q && (c == ' ' || c == '\t' || Meta(c)) { return false; }
      goes := QuoteTurn();
    }

    /** A pattern group opens. */
    method OpenGroup(c: char)
      requires |p| >= 2
      modifies this
      ensures State() == Lexer.Drop(Put(Put(old(State()), false, c), false, '(').(gd := old(gd) + 1, seen := true), 2)
      ensures |p| < |old(p)|
    {
      PutKeepsAll(State());
      Add(false, c);
      PutKeepsAll(State());
      Add(false, '(');
      gd := gd + 1;
      seen := true;
      Advance(2);
    }

    /** What would end a word does not inside a group. */
    method InGroup(c: char)
      requires p != ""
      modifies this
      ensures State() == Lexer.Drop(Put(old(State()), false, c).(gd := old(gd) + (if c == '(' then 1 else if c == ')' then -1 else 0)), 1)
      ensures |p| < |old(p)|
    {
      PutKeepsAll(State());
      var n := gd + (if c == '(' then 1 else if c == ')' then -1 else 0);
      Add(false, c);
      gd := n;
      Advance(1);
    }

    method TakeSubstitution() returns (goes: bool)
      requires p != ""
      modifies this
      ensures goes ==> Expand(old(State()), e, true) == Lex(State(), e) && |p| < |old(p)|
      ensures !goes ==> Expand(old(State()), e, true) == State()
    {
      goes := TakeExpansion(true);
    }

    /** A quote, a backslash, a dollar or an ordinary character. */
    method QuoteTurn() returns (goes: bool)
      requires p != ""
      modifies this
      ensures goes ==> Quoted(old(State()), e) == Lex(State(), e) && |p| < |old(p)|
      ensures !goes ==> Quoted(old(State()), e) == State()
    {
      hide Single, Lexer.Ansi, Expand, Put, Lex;
      var c, d := p[0], Ch(p, 1);
      PutKeepsAll(State());
      if !q && c == '\'' {
        Advance(1);
        seen := true;
        goes := TakeSingle();
        return;
      }
      if c == '"' {
        Advance(1);
        q := !q;
        seen := true;
        return true;
      }
      if c == '\\' {
        goes := SlashTurn();
        return;
      }
      if !q && c == '$' && d == '"' {
        Advance(1);
        seen := true;
        return true;
      }
      if !q && c == '$' && d == '\'' {
        Advance(2);
        seen := true;
        goes := TakeAnsi();
        return;
      }
      if c == '$' || c == '`' {
        goes := TakeExpansion(false);
        return;
      }
      Add(q, c);
      Advance(1);
      return true;
    }

    /** A backslash. */
    method SlashTurn() returns (goes: bool)
      requires p != "" && p[0] == '\\'
      modifies this
      ensures goes ==> Slash(old(State()), e) == Lex(State(), e) && |p| < |old(p)|
      ensures !goes ==> Slash(old(State()), e) == State()
    {
      hide Lex, Put;
      var d := Ch(p, 1);
      PutKeepsAll(State());
      if |p| == 1 {
        Add(true, '\\');
        seen := true;
        Advance(1);
        return false;
      }
      if d == '\n' {
        Advance(2);
        return true;
      }
      if q && !Lexer.Special(d) {
        Add(true, '\\');
        PutKeepsAll(State());
      }
      Add(true, d);
      seen := true;
      Advance(2);
      return true;
    }

    /** lx_word: the parts of one word; None where there is no word. */
    method TakeWord() returns (w: Option<seq<Part>>)
      requires parts == [] && b == "" && !cq && !q && !seen && gd == 0 && !more
      modifies this
      ensures (w, State()) == Word(old(p), e)
    {
      hide Lex, Flush;
      ghost var l := State();
      while p != ""
        invariant Lex(State(), e) == Lex(l, e)
        decreases |p|
      {
        var goes := Turn();
        if !goes {
          w := Finish();
          return;
        }
      }
      NoMore(State(), e);
      w := Finish();
    }

    method Finish() returns (w: Option<seq<Part>>)
      modifies this
      ensures State() == Flush(old(State()).(more := old(more) || old(q)))
      ensures w == if State().parts == [] && !State().seen then None else Some(if State().parts == [] then [Txt(true, "")] else State().parts)
    {
      if q { more := true; }
      TakeFlush();
      if parts == [] && !seen { return None; }
      return Some(if parts == [] then [Txt(true, "")] else parts);
    }
  }

  lemma {:induction false} PutKeepsAll(l: Lx)
    ensures forall q: bool, c: char :: var r := Put(l, q, c); r == l.(parts := r.parts, b := r.b, cq := r.cq)
  {
  }

  lemma {:induction false} FlushKeeps(l: Lx)
    ensures Flush(l) == l.(parts := Flush(l).parts, b := "")
  {
  }

  lemma {:induction false} NoMore(l: Lx, e: Around)
    requires l.p == ""
    ensures Lex(l, e) == l
  {
  }

  method TakeEscape(p: string) returns (s: string, rest: string)
    requires p != ""
    ensures (s, rest) == Lexer.Escape(p)
  {
    hide Lexer.Escape;
    var r := Lexer.Escape(p);
    return r.0, r.1;
  }

  lemma {:induction false} EscapeFits(p: string)
    requires p != ""
    ensures |Lexer.Escape(p).1| < |p|
  {
  }

  lemma {:induction false} AnsiSlash(l: Lx, e: Around)
    requires l.p != "" && l.p[0] == '\\'
    ensures Lexer.Ansi(l, e) == if |l.p| == 1 then l.(p := "", more := true)
                                else Lexer.Ansi(PutAll(l, true, Lexer.Escape(l.p[1..]).0).(p := Lexer.Escape(l.p[1..]).1), e)
    ensures forall s: string, r: string :: PutAll(l, true, s).(p := r) == PutAll(l.(p := l.p[1..]), true, s).(p := r)
  {
    hide Lexer.Escape, Lex;
    forall s: string, r: string ensures PutAll(l, true, s).(p := r) == PutAll(l.(p := l.p[1..]), true, s).(p := r) {
      PutAllMoves(l, s, l.p[1..], r);
    }
  }

  lemma {:induction false} PutAllMoves(l: Lx, s: string, q: string, r: string)
    ensures PutAll(l, true, s).(p := r) == PutAll(l.(p := q), true, s).(p := r)
    decreases |s|
  {
    hide Put;
    if s != "" {
      PutMoves(l, true, s[0], q);
      PutAllMoves(Put(l, true, s[0]), s[1..], q, r);
    }
  }

  lemma {:induction false} PutMoves(l: Lx, quoted: bool, c: char, q: string)
    ensures Put(l.(p := q), quoted, c) == Put(l, quoted, c).(p := q)
  {
  }

  lemma {:induction false} AnsiStops(l: Lx, e: Around)
    requires l.p == "" || l.p[0] == '\''
    ensures Lexer.Ansi(l, e) == if l.p == "" then l.(more := true) else Lex(Lexer.Drop(l, 1), e)
  {
    hide Lex;
  }

  /** A quote, a backslash, a dollar or an ordinary character, and the word goes on. */
  ghost function Quoted(l: Lx, e: Around): Lx
    requires l.p != ""
  {
    var c, d := l.p[0], Ch(l.p, 1);
    if !l.q && c == '\'' then Single(Lexer.Drop(l.(seen := true), 1), e)
    else if c == '"' then Lex(Lexer.Drop(l.(q := !l.q, seen := true), 1), e)
    else if c == '\\' then Slash(l, e)
    else if !l.q && c == '$' && d == '"' then Lex(Lexer.Drop(l.(seen := true), 1), e)
    else if !l.q && c == '$' && d == '\'' then Lexer.Ansi(Lexer.Drop(l.(seen := true), 2), e)
    else if c == '$' || c == '`' then Expand(l, e, false)
    else Lex(Lexer.Drop(Put(l, l.q, c), 1), e)
  }

  ghost function Slash(l: Lx, e: Around): Lx
    requires l.p != ""
  {
    var d := Ch(l.p, 1);
    if |l.p| == 1 then Lexer.Drop(Put(l, true, '\\').(seen := true), 1)
    else if d == '\n' then Lex(Lexer.Drop(l, 2), e)
    else
      var m := if l.q && !Lexer.Special(d) then Put(l, true, '\\') else l;
      Lex(Lexer.Drop(Put(m, true, d).(seen := true), 2), e)
  }

  lemma {:induction false} LexStep(l: Lx, e: Around)
    requires l.p != ""
    ensures var c, d := l.p[0], Ch(l.p, 1);
            Lex(l, e) ==
            if !l.q && (c == '<' || c == '>') && d == '(' then Expand(l, e, true)
            else if !l.q && c == '\n' then l
            else if !l.q && d == '(' && c in "?*+@!" && e.closes(l.p[2..]) then
              Lex(Lexer.Drop(Put(Put(l, false, c), false, '(').(gd := l.gd + 1, seen := true), 2), e)
            else if !l.q && l.gd != 0 && (c == ' ' || c == '\t' || Meta(c)) then
              Lex(Lexer.Drop(Put(l, false, c).(gd := l.gd + (if c == '(' then 1 else if c == ')' then -1 else 0)), 1), e)
            else if !l.q && (c == ' ' || c == '\t' || Meta(c)) then l
            else Quoted(l, e)
  {
    hide Single, Lexer.Ansi, Expand, Put;
  }

  /** Which quoter: s_sq, xquote in either mode, or al_quote. */
  datatype Quoter = BySq | ByXQuote(bs: bool) | ByArgument

  /** A value quoted for the shell and read by it again. */
  method ThereAndBack(v: string, how: Quoter, rest: string, e: Around) returns (w: Option<seq<Part>>)
    requires NulFree(v) && Stops(rest)
    ensures w.Some? && NoExp(w.value) && Text(w.value) == v
  {
    hide Word, Sq, XQuote, AQuote, NoExp, Text, NulFree, Stops;
    var quoted: string;
    match how {
      case BySq =>
        quoted := Quoting.PutSq("", v);
        assert quoted == Sq(v);
        SqBack(v, rest, e);
      case ByXQuote(bs) =>
        quoted := Quoting.Quote(v, bs);
        XQuoteBack(v, bs, rest, e);
      case ByArgument =>
        quoted := Quoting.PutArgument("", v);
        assert quoted == AQuote(v);
        AQuoteBack(v, rest, e);
    }
    var s := new Scanner(quoted + rest, e);
    w := s.TakeWord();
  }
}
