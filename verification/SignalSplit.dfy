/**
 The operator splitter of the lexer: a run of operator characters becomes signals, leftmost and
 longest first, by looking every one-character extension up in the signal table.
 */
module SignalSplit {
  import opened Options
  import opened Signals

  // ----- the table -----

  /** The operator characters. */
  predicate IsSignalChar(c: char) {
    c in "+-*/%^,.><=&|!()[]{}:?;"
  }

  function OneChar(c: char): Option<Signal> {
    if c == '+' then Some(Add) else if c == '-' then Some(Sub) else if c == '*' then Some(Mul)
    else if c == '/' then Some(Div) else if c == '%' then Some(Mod) else if c == '^' then Some(Pow)
    else if c == '>' then Some(Abo) else if c == '<' then Some(Und) else if c == '=' then Some(Asi)
    else if c == '&' then Some(Addr) else if c == '|' then Some(Error) else if c == '!' then Some(Not)
    else if c == '(' then Some(Slb) else if c == ')' then Some(Srb)
    else if c == '[' then Some(Mlb) else if c == ']' then Some(Mrb)
    else if c == '{' then Some(Llb) else if c == '}' then Some(Lrb)
    else if c == ',' then Some(Com) else if c == '.' then Some(Dot) else if c == ':' then Some(Pair)
    else if c == '?' then Some(Choice) else if c == ';' then Some(EndLine)
    else None
  }

  function BeforeEquals(c: char): Option<Signal> {
    if c == '+' then Some(AddAsi) else if c == '-' then Some(SubAsi) else if c == '*' then Some(MulAsi)
    else if c == '/' then Some(DivAsi) else if c == '%' then Some(ModAsi) else if c == '^' then Some(PowAsi)
    else if c == ':' then Some(LnkAsi) else if c == '=' then Some(Equ) else if c == '!' then Some(Neq)
    else if c == '>' then Some(Aeq) else if c == '<' then Some(Ueq)
    else None
  }

  function TwoChars(c: char, d: char): Option<Signal> {
    if d == '=' then BeforeEquals(c)
    else if c == d then
      if c == '&' then Some(And) else if c == '|' then Some(Or)
      else if c == '+' then Some(Inc) else if c == '-' then Some(Dec)
      else if c == '.' then Some(Error)
      else None
    else if c == '(' && d == ')' then Some(Esb)
    else if c == '[' && d == ']' then Some(Emb)
    else if c == '{' && d == '}' then Some(Elb)
    else if c == '-' && d == '>' then Some(Arrow)
    else None
  }

  /** `signal_map`. */
  function SignalOf(s: string): Option<Signal> {
    if |s| == 1 then OneChar(s[0])
    else if |s| == 2 then TwoChars(s[0], s[1])
    else if s == "..." then Some(Vargs)
    else None
  }

  predicate IsEntry(s: string) {
    SignalOf(s).Some?
  }

  lemma CharactersAreEntries(c: char)
    ensures IsSignalChar(c) <==> IsEntry([c])
  {
    var all := "+-*/%^,.><=&|!()[]{}:?;";
    if IsEntry([c]) {
      assert c == all[0] || c == all[1] || c == all[2] || c == all[3] || c == all[4] || c == all[5]
          || c == all[6] || c == all[7] || c == all[8] || c == all[9] || c == all[10] || c == all[11]
          || c == all[12] || c == all[13] || c == all[14] || c == all[15] || c == all[16] || c == all[17]
          || c == all[18] || c == all[19] || c == all[20] || c == all[21] || c == all[22];
    }
  }

  /** Every non-empty prefix of an entry is an entry; without `..` this would fail for `...`. */
  lemma EntriesArePrefixClosed(s: string, n: nat)
    requires IsEntry(s) && 0 < n <= |s|
    ensures IsEntry(s[..n])
  {
    if n == |s| {
      assert s[..n] == s;
    } else if |s| == 2 {
      assert s[..n] == [s[0]];
    } else if n == 1 {
      assert s[..n] == ".";
    } else {
      assert s[..n] == "..";
    }
  }

  /** Only a single `|` and `..` are errors. */
  lemma OnlyErrors(s: string)
    ensures SignalOf(s) == Some(Error) <==> s == "|" || s == ".."
  {
    if SignalOf(s) == Some(Error) {
      if |s| == 1 {
        assert s == [s[0]];
      } else if |s| == 2 {
        assert s == [s[0], s[1]];
      }
    }
  }

  // ----- leftmost-longest -----

  /** The length of the longest entry at the front of a text that starts with an operator character. */
  function Longest(text: string): (n: nat)
    requires text != []
    ensures 0 < n <= |text|
  {
    if |text| >= 3 && IsEntry(text[..3]) then 3
    else if |text| >= 2 && IsEntry(text[..2]) then 2
    else 1
  }

  lemma LongestIsLongest(text: string)
    requires text != [] && IsSignalChar(text[0])
    ensures IsEntry(text[..Longest(text)])
    ensures forall n :: 0 <= n <= |text| && IsEntry(text[..n]) ==> n <= Longest(text)
  {
    CharactersAreEntries(text[0]);
    assert text[..1] == [text[0]];
    forall n | 0 <= n <= |text| && IsEntry(text[..n]) ensures n <= Longest(text) {
      assert |text[..n]| == n <= 3;
    }
  }

  lemma FirstIsEntry(text: string)
    requires text != [] && IsSignalChar(text[0])
    ensures IsEntry(text[..Longest(text)])
  {
    LongestIsLongest(text);
  }

  /** The text cut leftmost-longest. */
  function Pieces(text: string): seq<string>
    decreases |text|
  {
    if text == [] then [] else [text[..Longest(text)]] + Pieces(text[Longest(text)..])
  }

  function Concat(pieces: seq<string>): string {
    if pieces == [] then [] else pieces[0] + Concat(pieces[1..])
  }

  predicate AllSignalChars(text: string) {
    forall c :: c in text ==> IsSignalChar(c)
  }

  lemma {:induction false} PiecesSpellTheText(text: string)
    requires AllSignalChars(text)
    ensures Concat(Pieces(text)) == text
    ensures forall p :: p in Pieces(text) ==> IsEntry(p)
    decreases |text|
  {
    if text != [] {
      assert IsSignalChar(text[0]);
      FirstIsEntry(text);
      var n := Longest(text);
      var first, rest := text[..n], text[n..];
      assert text == first + rest && AllSignalChars(rest);
      PiecesSpellTheText(rest);
      assert Pieces(text) == [first] + Pieces(rest);
      assert Concat([first] + Pieces(rest)) == first + Concat(Pieces(rest));
    }
  }

  /** The extension test decides: nothing longer than an entry that cannot grow by the next character. */
  lemma CannotGrow(sig: string, rest: string)
    requires IsEntry(sig)
    requires rest != [] ==> !IsEntry(sig + [rest[0]])
    ensures Pieces(sig + rest) == [sig] + Pieces(rest)
  {
    var text := sig + rest;
    assert text[..|sig|] == sig && text[|sig|..] == rest;
    forall n | |sig| < n <= |text| ensures !IsEntry(text[..n]) {
      assert text[..n][..|sig| + 1] == sig + [rest[0]];
      if IsEntry(text[..n]) {
        EntriesArePrefixClosed(text[..n], |sig| + 1);
      }
    }
    assert Longest(text) == |sig|;
  }

  // ----- the loop -----

  /** The signals of a cut text. */
  function Names(pieces: seq<string>): seq<Signal> {
    if pieces == [] then []
    else [if IsEntry(pieces[0]) then SignalOf(pieces[0]).value else Error] + Names(pieces[1..])
  }

  predicate NoError(pieces: seq<string>) {
    forall p :: p in pieces ==> SignalOf(p) != Some(Error)
  }

  lemma {:induction false} NamesLast(pieces: seq<string>, p: string)
    requires IsEntry(p)
    ensures Names(pieces + [p]) == Names(pieces) + [SignalOf(p).value]
  {
    if pieces != [] {
      assert (pieces + [p])[1..] == pieces[1..] + [p];
      NamesLast(pieces[1..], p);
    } else {
      assert pieces + [p] == [p];
    }
  }

  lemma NamesFirst(p: string, pieces: seq<string>)
    requires IsEntry(p)
    ensures Names([p] + pieces) == [SignalOf(p).value] + Names(pieces)
  {
    assert ([p] + pieces)[1..] == pieces;
  }

  /** The pieces cut so far and those of what is left. */
  function Cut(done: seq<string>, rest: string): seq<string> {
    done + Pieces(rest)
  }

  lemma NextPiece(done: seq<string>, sig: string, rest: string)
    requires IsEntry(sig)
    requires rest != [] ==> !IsEntry(sig + [rest[0]])
    ensures Cut(done, sig + rest) == Cut(done + [sig], rest)
    ensures sig in Cut(done + [sig], rest)
    ensures Names(done + [sig]) == Names(done) + [SignalOf(sig).value]
  {
    CannotGrow(sig, rest);
    Shift(done, sig, Pieces(rest));
    NamesLast(done, sig);
    assert (done + [sig])[|done|] == sig;
  }

  lemma Shift(done: seq<string>, p: string, pieces: seq<string>)
    ensures done + ([p] + pieces) == (done + [p]) + pieces
  {
  }

  /** The splitting loop over the collected operator characters. A signal of kind `Error` is refused when
      its token is made. */
  method SplitSignals(text: string) returns (ok: bool, tokens: seq<Signal>)
    requires AllSignalChars(text)
    ensures ok <==> NoError(Pieces(text))
    ensures ok ==> tokens == Names(Pieces(text))
  {
    tokens := [];
    var sig := "";
    ghost var done: seq<string> := [];
    assert Cut(done, sig + text[0..]) == Pieces(text) by { assert sig + text[0..] == text; }
    for i := 0 to |text|
      invariant if sig == "" then i == 0 else IsEntry(sig)
      invariant NoError(done) && tokens == Names(done)
      invariant Pieces(text) == Cut(done, sig + text[i..])
    {
      var ch := text[i];
      CharactersAreEntries(ch);
      assert text[i..] == [ch] + text[i + 1..];
      assert sig + text[i..] == (sig + [ch]) + text[i + 1..];
      if SignalOf(sig + [ch]).None? {
        assert sig != "" by { assert "" + [ch] == [ch]; }
        NextPiece(done, sig, text[i..]);
        done := done + [sig];
        if SignalOf(sig).value == Error {
          assert sig in Pieces(text);
          return false, [];
        }
        tokens := tokens + [SignalOf(sig).value];
        sig := [ch];
      } else {
        sig := sig + [ch];
      }
    }
    assert text[|text|..] == [] && sig + text[|text|..] == sig + [];
    if sig != "" {
      NextPiece(done, sig, []);
      done := done + [sig];
      if SignalOf(sig).value == Error {
        assert sig in Pieces(text);
        return false, [];
      }
      tokens := tokens + [SignalOf(sig).value];
    }
    assert Cut(done, []) == done;
    ok := true;
  }

  // ----- reading back -----

  /** How a signal of the table is written. */
  function Spelling(s: Signal): string {
    if s.Add? then "+" else if s.AddAsi? then "+=" else if s.Sub? then "-" else if s.SubAsi? then "-="
    else if s.Mul? then "*" else if s.MulAsi? then "*=" else if s.Div? then "/" else if s.DivAsi? then "/="
    else if s.Mod? then "%" else if s.ModAsi? then "%=" else if s.Pow? then "^" else if s.PowAsi? then "^="
    else if s.Abo? then ">" else if s.Und? then "<" else if s.Asi? then "=" else if s.LnkAsi? then ":="
    else if s.Addr? then "&" else if s.And? then "&&" else if s.Or? then "||" else if s.Not? then "!"
    else if s.Equ? then "==" else if s.Neq? then "!=" else if s.Aeq? then ">=" else if s.Ueq? then "<="
    else if s.Slb? then "(" else if s.Srb? then ")" else if s.Mlb? then "[" else if s.Mrb? then "]"
    else if s.Llb? then "{" else if s.Lrb? then "}" else if s.Com? then "," else if s.Dot? then "."
    else if s.Esb? then "()" else if s.Emb? then "[]" else if s.Elb? then "{}" else if s.Inc? then "++"
    else if s.Dec? then "--" else if s.Pair? then ":" else if s.Choice? then "?" else if s.Arrow? then "->"
    else if s.Vargs? then "..." else if s.EndLine? then ";"
    else ""
  }

  lemma OneCharReadsBack(c: char)
    requires OneChar(c).Some? && OneChar(c) != Some(Error)
    ensures Spelling(OneChar(c).value) == [c]
  {
  }

  lemma TwoCharsReadBack(c: char, d: char)
    requires TwoChars(c, d).Some? && TwoChars(c, d) != Some(Error)
    ensures Spelling(TwoChars(c, d).value) == [c, d]
  {
  }

  /** The table is one-to-one apart from the two entries for `Error`. */
  lemma SpellingReadsBack(p: string)
    requires IsEntry(p) && SignalOf(p) != Some(Error)
    ensures Spelling(SignalOf(p).value) == p
  {
    if |p| == 1 {
      OneCharReadsBack(p[0]);
      assert p == [p[0]];
    } else if |p| == 2 {
      TwoCharsReadBack(p[0], p[1]);
      assert p == [p[0], p[1]];
    }
  }

  /** The signals of arithmetic, comparison and assignment; half of the table. */
  predicate IsComputing(s: Signal) {
    s.Add? || s.Sub? || s.Mul? || s.Div? || s.Mod? || s.Pow? || s.Abo? || s.Und? || s.Asi? || s.Addr? || s.Not?
  }

  lemma ComputingIsEntry(s: Signal)
    requires |Spelling(s)| == 1 && IsComputing(s)
    ensures OneChar(Spelling(s)[0]) == Some(s)
  {
  }

  lemma PunctuationIsEntry(s: Signal)
    requires |Spelling(s)| == 1 && !IsComputing(s)
    ensures OneChar(Spelling(s)[0]) == Some(s)
  {
  }

  lemma TwoCharsAreEntry(s: Signal)
    requires |Spelling(s)| == 2
    ensures TwoChars(Spelling(s)[0], Spelling(s)[1]) == Some(s)
  {
  }

  lemma SpellingIsEntry(s: Signal)
    requires Spelling(s) != ""
    ensures SignalOf(Spelling(s)) == Some(s)
  {
    if |Spelling(s)| == 1 {
      if IsComputing(s) {
        ComputingIsEntry(s);
      } else {
        PunctuationIsEntry(s);
      }
    } else if |Spelling(s)| == 2 {
      TwoCharsAreEntry(s);
    } else {
      assert s.Vargs?;
    }
  }

  function Spell(tokens: seq<Signal>): string {
    if tokens == [] then "" else Spelling(tokens[0]) + Spell(tokens[1..])
  }

  lemma {:induction false} NamesSpellThePieces(pieces: seq<string>)
    requires NoError(pieces) && forall p :: p in pieces ==> IsEntry(p)
    ensures Spell(Names(pieces)) == Concat(pieces)
  {
    if pieces != [] {
      SpellingReadsBack(pieces[0]);
      NamesSpellThePieces(pieces[1..]);
    }
  }

  /** The spellings of the tokens, put together, are the text. */
  lemma TokensSpellTheText(text: string)
    requires AllSignalChars(text) && NoError(Pieces(text))
    ensures Spell(Names(Pieces(text))) == text
  {
    PiecesSpellTheText(text);
    NamesSpellThePieces(Pieces(text));
  }

  /** No token can take over the first character of the next one. */
  predicate Apart(tokens: seq<Signal>)
    requires forall t :: t in tokens ==> Spelling(t) != ""
  {
    |tokens| <= 1 || (!IsEntry(Spelling(tokens[0]) + [Spelling(tokens[1])[0]]) && Apart(tokens[1..]))
  }

  lemma SpellFirst(tokens: seq<Signal>)
    requires tokens != [] && Spelling(tokens[0]) != ""
    ensures Spell(tokens) != [] && Spell(tokens)[0] == Spelling(tokens[0])[0] && IsSignalChar(Spell(tokens)[0])
    ensures Spell(tokens)[..|Spelling(tokens[0])|] == Spelling(tokens[0])
    ensures Spell(tokens)[|Spelling(tokens[0])|..] == Spell(tokens[1..])
    ensures IsEntry(Spelling(tokens[0])) && SignalOf(Spelling(tokens[0])) == Some(tokens[0]) && tokens[0] != Error
  {
    SpellingIsEntry(tokens[0]);
    EntriesArePrefixClosed(Spelling(tokens[0]), 1);
    assert Spelling(tokens[0])[..1] == [Spelling(tokens[0])[0]];
    CharactersAreEntries(Spelling(tokens[0])[0]);
  }

  lemma {:induction false} ApartIsUndone(tokens: seq<Signal>)
    requires forall t :: t in tokens ==> Spelling(t) != ""
    requires Apart(tokens)
    ensures Names(Pieces(Spell(tokens))) == tokens
  {
    if tokens != [] {
      var first, rest := Spelling(tokens[0]), tokens[1..];
      SpellFirst(tokens);
      ApartIsUndone(rest);
      if rest != [] { SpellFirst(rest); }
      CannotGrow(first, Spell(rest));
      NamesFirst(first, Pieces(Spell(rest)));
      assert tokens == [tokens[0]] + rest;
    }
  }

  /** The first piece is the spelling of the first signal. */
  lemma FirstPiece(text: string, tokens: seq<Signal>)
    requires text != [] && IsSignalChar(text[0])
    requires tokens != [] && tokens[0] != Error && Names(Pieces(text)) == tokens
    ensures text[..Longest(text)] == Spelling(tokens[0])
    ensures Names(Pieces(text[Longest(text)..])) == tokens[1..]
  {
    FirstIsEntry(text);
    var first, rest := text[..Longest(text)], Pieces(text[Longest(text)..]);
    NamesFirst(first, rest);
    SpellingReadsBack(first);
  }

  lemma LongestCannotGrow(text: string, rest: string)
    requires text != [] && IsSignalChar(text[0]) && rest == text[Longest(text)..] != []
    ensures !IsEntry(text[..Longest(text)] + [rest[0]])
  {
    var n := Longest(text);
    LongestIsLongest(text);
    assert text[..n + 1] == text[..n] + [rest[0]];
  }

  /** No entry at the front of the text is longer than the first token's spelling. */
  lemma FirstIsLongest(tokens: seq<Signal>)
    requires |tokens| > 1 && forall t :: t in tokens ==> Spelling(t) != ""
    requires Names(Pieces(Spell(tokens))) == tokens
    ensures Names(Pieces(Spell(tokens[1..]))) == tokens[1..] && Spell(tokens[1..]) != []
    ensures !IsEntry(Spelling(tokens[0]) + [Spell(tokens[1..])[0]])
  {
    SpellFirst(tokens);
    SpellFirst(tokens[1..]);
    var text := Spell(tokens);
    FirstPiece(text, tokens);
    LongestCannotGrow(text, Spell(tokens[1..]));
  }

  lemma {:induction false} UndoneIsApart(tokens: seq<Signal>)
    requires forall t :: t in tokens ==> Spelling(t) != ""
    requires Names(Pieces(Spell(tokens))) == tokens
    ensures Apart(tokens)
  {
    if |tokens| > 1 {
      FirstIsLongest(tokens);
      SpellFirst(tokens[1..]);
      UndoneIsApart(tokens[1..]);
      assert Spelling(tokens[1])[0] == Spell(tokens[1..])[0];
    }
  }

  /** Splitting undoes writing exactly when no two neighbours run into each other. */
  lemma SplitUndoesSpell(tokens: seq<Signal>)
    requires forall t :: t in tokens ==> Spelling(t) != ""
    ensures Names(Pieces(Spell(tokens))) == tokens <==> Apart(tokens)
  {
    if Apart(tokens) {
      ApartIsUndone(tokens);
    } else if Names(Pieces(Spell(tokens))) == tokens {
      UndoneIsApart(tokens);
    }
  }
}
