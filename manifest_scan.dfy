/** What `extract_vars` computes, stated over an independent reading of the
    text: first resolve the escapes of each line into tokens, then replay
    the tokens.  Everything here is about `Manifest.ExtractVarsSpec`, which
    `Manifest.ExtractVars` is proved to return. */
module ManifestScan {
  import opened Wrappers
  import opened Seqs
  import opened Manifest

  /** A byte as the scanner sees it once escapes are resolved: the byte after
      an unescaped `\`, an unescaped `{`, an unescaped `}`, or any other byte. */
  datatype Token = Escaped(b: byte) | Open | Close | Plain(b: byte)

  function Classify(b: byte): Token
  {
    if b == LBRACE then Open else if b == RBRACE then Close else Plain(b)
  }

  /** The tokens of one line.  A `\` takes the next byte of the same line as
      literal; a `\` that ends the line escapes nothing. */
  function LineTokens(bytes: seq<byte>): seq<Token>
    decreases |bytes|
  {
    if bytes == [] then []
    else if bytes[0] == BACKSLASH then
      if |bytes| == 1 then [] else [Escaped(bytes[1])] + LineTokens(bytes[2..])
    else [Classify(bytes[0])] + LineTokens(bytes[1..])
  }

  /** The tokens of several lines: each line is read on its own, so no
      escape reaches across a line break. */
  function Tokens(ls: seq<seq<byte>>): seq<Token>
    decreases |ls|
  {
    if ls == [] then [] else LineTokens(ls[0]) + Tokens(ls[1..])
  }

  function TextTokens(text: seq<byte>): seq<Token>
  {
    Tokens(Lines(text))
  }

  /** An escaped byte always joins the accumulator; an ordinary byte only
      while a `{` is open; `}` always records the accumulator. */
  function Apply(s: Scanner, t: Token): Scanner
  {
    match t
    case Escaped(b) => s.(acc := s.acc + [ByteChar(b)])
    case Open => s.(pairing := true)
    case Close => s.(pairing := false, vars := s.vars + [s.acc])
    case Plain(b) => if s.pairing then s.(acc := s.acc + [ByteChar(b)]) else s
  }

  function Replay(s: Scanner, ts: seq<Token>): Scanner
    decreases |ts|
  {
    if ts == [] then s else Replay(Apply(s, ts[0]), ts[1..])
  }

  /** The last `Open` or `Close` token, if any. */
  function LastBrace(ts: seq<Token>): (r: Option<Token>)
    ensures r.Some? ==> r.value == Open || r.value == Close
    decreases |ts|
  {
    if ts == [] then None
    else if ts[|ts| - 1] == Open || ts[|ts| - 1] == Close then Some(ts[|ts| - 1])
    else LastBrace(ts[..|ts| - 1])
  }

  function Chars(bytes: seq<byte>): (r: string)
    ensures |r| == |bytes|
    ensures forall i :: 0 <= i < |bytes| ==> r[i] == ByteChar(bytes[i])
  {
    seq(|bytes|, i requires 0 <= i < |bytes| => ByteChar(bytes[i]))
  }

  /** No brace, backslash or line feed: bytes the scanner reads as plain text. */
  predicate Clean(bytes: seq<byte>)
  {
    forall i :: 0 <= i < |bytes| ==> bytes[i] != LBRACE && bytes[i] != RBRACE && bytes[i] != BACKSLASH && bytes[i] != LF
  }

  // ---------------------------------------------------------------------
  // The two readings agree
  // ---------------------------------------------------------------------

  lemma {:induction false} ReplayConcat(s: Scanner, a: seq<Token>, b: seq<Token>)
    ensures Replay(s, a + b) == Replay(Replay(s, a), b)
    decreases |a|
  {
    if a == [] {
      assert a + b == b;
    } else {
      assert (a + b)[0] == a[0];
      assert (a + b)[1..] == a[1..] + b;
      ReplayConcat(Apply(s, a[0]), a[1..], b);
    }
  }

  lemma {:induction false} ScanLineIsReplay(s: Scanner, bytes: seq<byte>)
    ensures ScanLine(s, false, bytes) == Replay(s, LineTokens(bytes))
    decreases |bytes|
  {
    if bytes == [] {
    } else if bytes[0] == BACKSLASH {
      var rest := bytes[1..];
      if |bytes| == 1 {
        assert ScanLine(s, true, rest) == s;
      } else {
        var s' := s.(acc := s.acc + [ByteChar(bytes[1])]);
        assert ScanLine(s, true, rest) == ScanLine(s', false, rest[1..]);
        assert rest[1..] == bytes[2..];
        ScanLineIsReplay(s', bytes[2..]);
        var ts := [Escaped(bytes[1])] + LineTokens(bytes[2..]);
        assert ts[0] == Escaped(bytes[1]) && ts[1..] == LineTokens(bytes[2..]);
      }
    } else {
      var ts := [Classify(bytes[0])] + LineTokens(bytes[1..]);
      assert ts[0] == Classify(bytes[0]) && ts[1..] == LineTokens(bytes[1..]);
      assert Step(s, false, bytes[0]) == (Apply(s, Classify(bytes[0])), false);
      ScanLineIsReplay(Apply(s, Classify(bytes[0])), bytes[1..]);
    }
  }

  lemma {:induction false} ScanLinesIsReplay(s: Scanner, ls: seq<seq<byte>>)
    ensures ScanLines(s, ls) == Replay(s, Tokens(ls))
    decreases |ls|
  {
    if ls != [] {
      ScanLineIsReplay(s, ls[0]);
      ScanLinesIsReplay(ScanLine(s, false, ls[0]), ls[1..]);
      ReplayConcat(s, LineTokens(ls[0]), Tokens(ls[1..]));
    }
  }

  /** The scanner's result, read off the token replay. */
  lemma ExtractVarsByTokens(text: seq<byte>)
    ensures var last := Replay(Initial, TextTokens(text));
      ExtractVarsSpec(text) ==
        if last.pairing then Err(UnbalancedBrace(|Lines(text)|, LastLength(Lines(text)))) else Ok(last.vars)
  {
    ScanLinesIsReplay(Initial, Lines(text));
  }

  // ---------------------------------------------------------------------
  // Facts about the replay
  // ---------------------------------------------------------------------

  /** Each `Close` adds exactly one entry, and entries are only appended. */
  lemma {:induction false} ReplayCloses(s: Scanner, ts: seq<Token>)
    ensures |Replay(s, ts).vars| == |s.vars| + Count(ts, Close)
    ensures s.vars <= Replay(s, ts).vars
    decreases |ts|
  {
    if ts != [] {
      ReplayCloses(Apply(s, ts[0]), ts[1..]);
    }
  }

  /** After the replay a brace is open exactly when the last brace token is
      `Open` (or, with no brace token at all, when one was open before). */
  lemma {:induction false} ReplayPairing(s: Scanner, ts: seq<Token>)
    ensures Replay(s, ts).pairing == match LastBrace(ts) case None => s.pairing case Some(t) => t == Open
    decreases |ts|
  {
    if ts != [] {
      var n := |ts| - 1;
      assert ts == ts[..n] + [ts[n]];
      ReplayConcat(s, ts[..n], [ts[n]]);
      ReplayPairing(s, ts[..n]);
    }
  }

  /** Each entry is a prefix of the next and of the accumulator. */
  ghost predicate Chained(s: Scanner)
  {
    (forall i :: 0 <= i < |s.vars| ==> s.vars[i] <= s.acc) &&
    (forall i :: 0 <= i < |s.vars| - 1 ==> s.vars[i] <= s.vars[i + 1])
  }

  lemma {:induction false} ReplayChained(s: Scanner, ts: seq<Token>)
    requires Chained(s)
    ensures Chained(Replay(s, ts))
    ensures s.acc <= Replay(s, ts).acc
    decreases |ts|
  {
    if ts != [] {
      var s' := Apply(s, ts[0]);
      assert s.acc <= s'.acc;
      assert Chained(s') by {
        forall i | 0 <= i < |s'.vars|
          ensures s'.vars[i] <= s'.acc
        {
          if i < |s.vars| {
            assert s'.vars[i] == s.vars[i];
          }
        }
      }
      ReplayChained(s', ts[1..]);
    }
  }

  // ---------------------------------------------------------------------
  // Byte-level facts
  // ---------------------------------------------------------------------

  /** Total count of `b` over all lines. */
  function CountLines(ls: seq<seq<byte>>, b: byte): nat
    decreases |ls|
  {
    if ls == [] then 0 else Count(ls[0], b) + CountLines(ls[1..], b)
  }

  /** How `Lines` takes off its first line. */
  lemma LinesUnfold(text: seq<byte>)
    requires IndexOf(text, LF) < |text|
    ensures Lines(text) == [StripCR(text[..IndexOf(text, LF)])] + Lines(text[IndexOf(text, LF) + 1..])
  {
  }

  lemma StripCRCount(l: seq<byte>, b: byte)
    requires b != CR
    ensures Count(StripCR(l), b) == Count(l, b)
  {
    if StripCR(l) != l {
      assert l == StripCR(l) + [CR];
      CountConcat(StripCR(l), [CR], b);
    }
  }

  /** Splitting into lines keeps every byte other than `\n` and `\r`. */
  lemma {:induction false} LinesCount(text: seq<byte>, b: byte)
    requires b != LF && b != CR
    ensures CountLines(Lines(text), b) == Count(text, b)
    decreases |text|
  {
    if text != [] {
      var i := IndexOf(text, LF);
      if i < |text| {
        var l, rest := text[..i], text[i + 1..];
        assert text == l + ([LF] + rest);
        CountConcat(l, [LF] + rest, b);
        assert Count([LF] + rest, b) == Count(rest, b);
        StripCRCount(l, b);
        LinesCount(rest, b);
        LinesUnfold(text);
        var ls := Lines(text);
        assert ls[0] == StripCR(l) && ls[1..] == Lines(rest);
      } else {
        assert Lines(text) == [text];
        assert Lines(text)[1..] == [];
      }
    }
  }

  /** Whether the text ends in an unterminated line. */
  predicate OpenEnded(text: seq<byte>)
  {
    text != [] && text[|text| - 1] != LF
  }

  /** Every `\n` ends one line, and an unterminated last line is one more:
      the line number an error reports is this count. */
  lemma {:induction false} LinesNumber(text: seq<byte>)
    ensures |Lines(text)| == Count(text, LF) + (if OpenEnded(text) then 1 else 0)
    decreases |text|
  {
    if text != [] {
      var i := IndexOf(text, LF);
      if i < |text| {
        var rest := text[i + 1..];
        LinesNumber(rest);
        CountAroundLF(text, i);
        LinesUnfold(text);
        OpenEndedAfterLF(text, i);
      } else {
        assert LF !in text;
        assert Lines(text) == [text];
      }
    }
  }

  /** The first `\n` of a text, and the line feeds after it. */
  lemma CountAroundLF(text: seq<byte>, i: nat)
    requires i == IndexOf(text, LF) && i < |text|
    ensures Count(text, LF) == 1 + Count(text[i + 1..], LF)
  {
    var l, rest := text[..i], text[i + 1..];
    SplitAt(text, i);
    CountConcat(l + [LF], rest, LF);
    CountConcat(l, [LF], LF);
  }

  /** What follows a `\n` ends the way the whole text does. */
  lemma OpenEndedAfterLF(text: seq<byte>, i: nat)
    requires i < |text| && text[i] == LF
    ensures OpenEnded(text) == OpenEnded(text[i + 1..])
  {
    if i + 1 < |text| {
      assert text[i + 1..][|text| - i - 2] == text[|text| - 1];
    }
  }

  /** Each line followed by `\n`, one after the other. */
  function Terminated(ls: seq<seq<byte>>): seq<byte>
    decreases |ls|
  {
    if ls == [] then [] else ls[0] + [LF] + Terminated(ls[1..])
  }

  /** Without `\r`, the lines are the text itself: terminating each one
      gives back the text, with a `\n` added after an unterminated last
      line. */
  lemma {:induction false} LinesTerminated(text: seq<byte>)
    requires CR !in text
    ensures Terminated(Lines(text)) == text + (if OpenEnded(text) then [LF] else [])
    decreases |text|
  {
    if text != [] {
      var i := IndexOf(text, LF);
      if i < |text| {
        var rest := text[i + 1..];
        LinesTerminated(rest);
        TerminatedStep(text, i);
      } else {
        assert Lines(text) == [text];
        assert Lines(text)[1..] == [];
        assert text[|text| - 1] != LF;
      }
    }
  }

  /** Each line followed by `\r\n`, one after the other. */
  function CrlfTerminated(ls: seq<seq<byte>>): seq<byte>
    decreases |ls|
  {
    if ls == [] then [] else ls[0] + [CR, LF] + CrlfTerminated(ls[1..])
  }

  /** `\r\n` ends a line as `\n` does: lines without `\n`, each followed by
      `\r\n`, come back from `Lines` unchanged, a `\r` of their own
      included. */
  lemma {:induction false} LinesCrlf(ls: seq<seq<byte>>)
    requires forall k :: 0 <= k < |ls| ==> LF !in ls[k]
    ensures Lines(CrlfTerminated(ls)) == ls
    decreases |ls|
  {
    if ls != [] {
      LinesCrlf(ls[1..]);
      CrlfLineInFront(ls[0], CrlfTerminated(ls[1..]));
      assert ls == [ls[0]] + ls[1..];
    }
  }

  /** A line ended by `\r\n`, in front of any text, is the first line. */
  lemma CrlfLineInFront(first: seq<byte>, rest: seq<byte>)
    requires LF !in first
    ensures Lines(first + [CR, LF] + rest) == [first] + Lines(rest)
  {
    var head := first + [CR];
    var text := head + ([LF] + rest);
    assert first + [CR, LF] + rest == text;
    IndexOfAfter(head, [LF] + rest, LF);
    var i := IndexOf(text, LF);
    assert text[..i] == head && text[i + 1..] == rest;
    LinesUnfold(text);
    assert head[..|head| - 1] == first;
  }

  /** The step of `LinesTerminated`: the first line, its `\n`, and the rest. */
  lemma TerminatedStep(text: seq<byte>, i: nat)
    requires CR !in text && i == IndexOf(text, LF) && i < |text|
    requires Terminated(Lines(text[i + 1..])) == text[i + 1..] + (if OpenEnded(text[i + 1..]) then [LF] else [])
    ensures Terminated(Lines(text)) == text + (if OpenEnded(text) then [LF] else [])
  {
    var l, rest := text[..i], text[i + 1..];
    FirstLineKept(text, i);
    var ls := Lines(text);
    TerminatedCons(ls);
    assert ls[0] == l && ls[1..] == Lines(rest);
    SplitAt(text, i);
    TerminatedAppend(l, rest, text, Terminated(Lines(rest)));
  }

  /** How `Terminated` takes off its first line. */
  lemma TerminatedCons(ls: seq<seq<byte>>)
    requires ls != []
    ensures Terminated(ls) == ls[0] + [LF] + Terminated(ls[1..])
  {}
  /** A text split around one of its `\n` bytes. */
  lemma SplitAt(text: seq<byte>, i: nat)
    requires i < |text| && text[i] == LF
    ensures text == text[..i] + [LF] + text[i + 1..]
  {}
  /** Without `\r`, the first line is kept as it is. */
  lemma FirstLineKept(text: seq<byte>, i: nat)
    requires CR !in text && i == IndexOf(text, LF) && i < |text|
    ensures Lines(text) == [text[..i]] + Lines(text[i + 1..])
  {
    var l := text[..i];
    if |l| > 0 { assert l[|l| - 1] == text[i - 1]; }
    LinesUnfold(text);
  }

  /** A line and its `\n` in front of the rest leave the ending to the rest. */
  lemma TerminatedAppend(l: seq<byte>, rest: seq<byte>, text: seq<byte>, t: seq<byte>)
    requires text == l + [LF] + rest
    requires t == rest + (if OpenEnded(rest) then [LF] else [])
    ensures l + [LF] + t == text + (if OpenEnded(text) then [LF] else [])
  {
    if rest != [] {
      assert text[|text| - 1] == rest[|rest| - 1];
    }
  }

  /** In a line without `\`, the tokens count the braces byte for byte. */
  lemma {:induction false} LineTokensCount(bytes: seq<byte>)
    requires BACKSLASH !in bytes
    ensures Count(LineTokens(bytes), Close) == Count(bytes, RBRACE)
    ensures Count(LineTokens(bytes), Open) == Count(bytes, LBRACE)
    decreases |bytes|
  {
    if bytes != [] {
      LineTokensCount(bytes[1..]);
      var ts := [Classify(bytes[0])] + LineTokens(bytes[1..]);
      assert ts[0] == Classify(bytes[0]) && ts[1..] == LineTokens(bytes[1..]);
    }
  }

  /** A line without `{` yields no `Open`, escapes or not. */
  lemma {:induction false} LineTokensNoOpen(bytes: seq<byte>)
    requires LBRACE !in bytes
    ensures Open !in LineTokens(bytes)
    decreases |bytes|
  {
    if bytes != [] {
      if bytes[0] == BACKSLASH {
        if |bytes| > 1 {
          assert LBRACE !in bytes[2..] by {
            forall k | 0 <= k < |bytes[2..]| ensures bytes[2..][k] != LBRACE {
              assert bytes[2..][k] == bytes[k + 2];
            }
          }
          LineTokensNoOpen(bytes[2..]);
        }
      } else {
        assert LBRACE !in bytes[1..] by {
          forall k | 0 <= k < |bytes[1..]| ensures bytes[1..][k] != LBRACE {
            assert bytes[1..][k] == bytes[k + 1];
          }
        }
        LineTokensNoOpen(bytes[1..]);
      }
    }
  }

  lemma {:induction false} TokensCount(ls: seq<seq<byte>>)
    requires CountLines(ls, BACKSLASH) == 0
    ensures Count(Tokens(ls), Close) == CountLines(ls, RBRACE)
    decreases |ls|
  {
    if ls != [] {
      LineTokensCount(ls[0]);
      TokensCount(ls[1..]);
      CountConcat(LineTokens(ls[0]), Tokens(ls[1..]), Close);
    }
  }

  lemma {:induction false} TokensNoOpen(ls: seq<seq<byte>>)
    requires CountLines(ls, LBRACE) == 0
    ensures Open !in Tokens(ls)
    decreases |ls|
  {
    if ls != [] {
      LineTokensNoOpen(ls[0]);
      TokensNoOpen(ls[1..]);
    }
  }

  lemma {:induction false} NoOpenNoPairing(s: Scanner, ts: seq<Token>)
    requires !s.pairing && Open !in ts
    ensures LastBrace(ts) != Some(Open)
    decreases |ts|
  {
    if ts != [] && ts[|ts| - 1] != Close {
      NoOpenNoPairing(s, ts[..|ts| - 1]);
    }
  }

  // ---------------------------------------------------------------------
  // The properties of extract_vars
  // ---------------------------------------------------------------------

  /** Every unescaped `}` adds exactly one entry, inside braces or not. */
  lemma ExtractVarsCount(text: seq<byte>)
    ensures ExtractVarsSpec(text).Ok? ==> |ExtractVarsSpec(text).value| == Count(TextTokens(text), Close)
  {
    ExtractVarsByTokens(text);
    ReplayCloses(Initial, TextTokens(text));
  }

  /** Without any `\`, the entries are exactly as many as the `}` bytes. */
  lemma ExtractVarsCountBytes(text: seq<byte>)
    requires BACKSLASH !in text
    ensures ExtractVarsSpec(text).Ok? ==> |ExtractVarsSpec(text).value| == Count(text, RBRACE)
  {
    ExtractVarsCount(text);
    LinesCount(text, BACKSLASH);
    LinesCount(text, RBRACE);
    TokensCount(Lines(text));
  }

  /** The scan fails exactly when the last unescaped brace is `{`. */
  lemma ExtractVarsFails(text: seq<byte>)
    ensures ExtractVarsSpec(text).Err? <==> LastBrace(TextTokens(text)) == Some(Open)
  {
    ExtractVarsByTokens(text);
    ReplayPairing(Initial, TextTokens(text));
  }

  /** The accumulator is never cleared: each entry is a prefix of the next. */
  lemma ExtractVarsPrefixes(text: seq<byte>)
    ensures ExtractVarsSpec(text).Ok? ==>
      var vs := ExtractVarsSpec(text).value;
      forall i :: 0 <= i < |vs| - 1 ==> vs[i] <= vs[i + 1]
  {
    ExtractVarsByTokens(text);
    ReplayChained(Initial, TextTokens(text));
  }

  /** Text without `{` never fails, whatever its `}` and `\` bytes. */
  lemma NoLeftBraceNeverFails(text: seq<byte>)
    requires LBRACE !in text
    ensures ExtractVarsSpec(text).Ok?
  {
    LinesCount(text, LBRACE);
    TokensNoOpen(Lines(text));
    NoOpenNoPairing(Initial, TextTokens(text));
    ExtractVarsFails(text);
  }

  /** Text without `{`, `}` and `\` captures nothing. */
  lemma PlainTextCapturesNothing(text: seq<byte>)
    requires LBRACE !in text && RBRACE !in text && BACKSLASH !in text
    ensures ExtractVarsSpec(text) == Ok([])
  {
    NoLeftBraceNeverFails(text);
    ExtractVarsCountBytes(text);
  }

  // ---------------------------------------------------------------------
  // Shapes of text, and the cases the repository's test checks
  // ---------------------------------------------------------------------

  lemma SingleLine(text: seq<byte>)
    requires text != [] && LF !in text
    ensures Lines(text) == [text] && TextTokens(text) == LineTokens(text)
  {
    assert Tokens([text]) == LineTokens(text) + Tokens([]);
  }

  lemma {:induction false} LineTokensConcat(a: seq<byte>, b: seq<byte>)
    requires BACKSLASH !in a
    ensures LineTokens(a + b) == LineTokens(a) + LineTokens(b)
    decreases |a|
  {
    if a == [] {
      assert a + b == b;
    } else {
      assert (a + b)[0] == a[0] && (a + b)[1..] == a[1..] + b;
      LineTokensConcat(a[1..], b);
    }
  }

  function Plains(bytes: seq<byte>): (ts: seq<Token>)
    ensures |ts| == |bytes|
  {
    seq(|bytes|, i requires 0 <= i < |bytes| => Plain(bytes[i]))
  }

  lemma {:induction false} CleanTokens(bytes: seq<byte>)
    requires Clean(bytes)
    ensures LineTokens(bytes) == Plains(bytes)
    decreases |bytes|
  {
    if bytes != [] {
      CleanTokens(bytes[1..]);
      assert Plains(bytes) == [Plain(bytes[0])] + Plains(bytes[1..]);
    }
  }

  lemma PlainsCons(bytes: seq<byte>)
    requires bytes != []
    ensures Plains(bytes)[0] == Plain(bytes[0]) && Plains(bytes)[1..] == Plains(bytes[1..])
    ensures Chars(bytes) == [ByteChar(bytes[0])] + Chars(bytes[1..])
  {
  }

  /** Plain bytes join the accumulator while a brace is open, and are
      ignored otherwise. */
  lemma ReplayPlains(s: Scanner, bytes: seq<byte>)
    ensures Replay(s, Plains(bytes)) == if s.pairing then s.(acc := s.acc + Chars(bytes)) else s
  {
    if s.pairing {
      ReplayPlainsOpen(s, bytes);
    } else {
      ReplayPlainsClosed(s, bytes);
    }
  }

  lemma {:induction false} ReplayPlainsOpen(s: Scanner, bytes: seq<byte>)
    requires s.pairing
    ensures Replay(s, Plains(bytes)) == s.(acc := s.acc + Chars(bytes))
    decreases |bytes|
  {
    if bytes == [] {
      assert s.acc + Chars(bytes) == s.acc;
    } else {
      var s' := s.(acc := s.acc + [ByteChar(bytes[0])]);
      ReplayPlainOpenStep(s, bytes);
      ReplayPlainsOpen(s', bytes[1..]);
      AccumulateChars(s.acc, bytes);
    }
  }

  lemma ReplayPlainOpenStep(s: Scanner, bytes: seq<byte>)
    requires s.pairing && bytes != []
    ensures Replay(s, Plains(bytes)) == Replay(s.(acc := s.acc + [ByteChar(bytes[0])]), Plains(bytes[1..]))
  {
    PlainsCons(bytes);
  }

  lemma AccumulateChars(acc: string, bytes: seq<byte>)
    requires bytes != []
    ensures (acc + [ByteChar(bytes[0])]) + Chars(bytes[1..]) == acc + Chars(bytes)
  {
    PlainsCons(bytes);
    assert (acc + [ByteChar(bytes[0])]) + Chars(bytes[1..]) == acc + ([ByteChar(bytes[0])] + Chars(bytes[1..]));
  }

  lemma {:induction false} ReplayPlainsClosed(s: Scanner, bytes: seq<byte>)
    requires !s.pairing
    ensures Replay(s, Plains(bytes)) == s
    decreases |bytes|
  {
    if bytes != [] {
      PlainsCons(bytes);
      assert Replay(s, Plains(bytes)) == Replay(s, Plains(bytes[1..]));
      ReplayPlainsClosed(s, bytes[1..]);
    }
  }

  /** `{name}` as tokens. */
  lemma {:induction false} CaptureTokens(name: seq<byte>)
    requires Clean(name)
    ensures BACKSLASH !in [LBRACE] + name + [RBRACE]
    ensures LineTokens([LBRACE] + name + [RBRACE]) == [Open] + Plains(name) + [Close]
  {
    var text := [LBRACE] + name + [RBRACE];
    assert BACKSLASH !in text by {
      forall k | 0 <= k < |text| ensures text[k] != BACKSLASH {
        if 1 <= k <= |name| { assert text[k] == name[k - 1]; }
      }
    }
    assert text[0] == LBRACE && text[1..] == name + [RBRACE];
    assert LineTokens(text) == [Open] + LineTokens(name + [RBRACE]);
    LineTokensConcat(name, [RBRACE]);
    CleanTokens(name);
    assert LineTokens([RBRACE]) == [Close] + LineTokens([]);
  }

  /** Replaying `{name}`: the accumulator grows by `name` and is recorded. */
  lemma ReplayCapture(s: Scanner, name: seq<byte>)
    ensures Replay(s, [Open] + Plains(name) + [Close]) ==
      Scanner(false, s.acc + Chars(name), s.vars + [s.acc + Chars(name)])
  {
    var s1 := s.(pairing := true);
    assert Replay(s, [Open]) == s1 by {
      assert Replay(s, [Open]) == Replay(s1, []);
    }
    ReplayConcat(s, [Open] + Plains(name), [Close]);
    ReplayConcat(s, [Open], Plains(name));
    ReplayPlains(s1, name);
    var s2 := s1.(acc := s.acc + Chars(name));
    assert Replay(s2, [Close]) == Replay(Apply(s2, Close), []);
  }

  lemma CleanNoLF(parts: seq<byte>, text: seq<byte>)
    requires forall k :: 0 <= k < |text| ==> text[k] == LBRACE || text[k] == RBRACE || text[k] == BACKSLASH || text[k] in parts
    requires Clean(parts)
    ensures text != [] ==> LF !in text
  {
    forall k | 0 <= k < |text| ensures text[k] != LF {
      if text[k] in parts {
        var j :| 0 <= j < |parts| && parts[j] == text[k];
      }
    }
  }

  /** `{name}tail` on one line captures `name`. */
  lemma CaptureThenText(name: seq<byte>, tail: seq<byte>)
    requires Clean(name) && Clean(tail)
    ensures ExtractVarsSpec([LBRACE] + name + [RBRACE] + tail) == Ok([Chars(name)])
  {
    var capture := [LBRACE] + name + [RBRACE];
    var text := capture + tail;
    CleanNoLF(name + tail, text);
    SingleLine(text);
    CaptureTokens(name);
    LineTokensConcat(capture, tail);
    CleanTokens(tail);
    var c := [Open] + Plains(name) + [Close];
    ReplayConcat(Initial, c, Plains(tail));
    ReplayCapture(Initial, name);
    assert [] + Chars(name) == Chars(name);
    ReplayPlains(Replay(Initial, c), tail);
    assert Lines(text) == [text];
    assert TextTokens(text) == c + Plains(tail);
    assert Replay(Initial, c + Plains(tail)) == Scanner(false, Chars(name), [Chars(name)]);
    ExtractVarsByTokens(text);
  }

  /** `{a}{b}` captures `a` and then `ab`: the accumulator carries over. */
  lemma TwoCaptures(a: seq<byte>, b: seq<byte>)
    requires Clean(a) && Clean(b)
    ensures ExtractVarsSpec([LBRACE] + a + [RBRACE, LBRACE] + b + [RBRACE]) == Ok([Chars(a), Chars(a) + Chars(b)])
  {
    var first, second := [LBRACE] + a + [RBRACE], [LBRACE] + b + [RBRACE];
    var text := first + second;
    assert text == [LBRACE] + a + [RBRACE, LBRACE] + b + [RBRACE];
    CleanNoLF(a + b, text);
    SingleLine(text);
    CaptureTokens(a);
    CaptureTokens(b);
    LineTokensConcat(first, second);
    var ca, cb := [Open] + Plains(a) + [Close], [Open] + Plains(b) + [Close];
    ReplayConcat(Initial, ca, cb);
    ReplayCapture(Initial, a);
    assert [] + Chars(a) == Chars(a);
    ReplayCapture(Replay(Initial, ca), b);
    assert Lines(text) == [text];
    assert TextTokens(text) == ca + cb;
    assert Replay(Initial, ca + cb) == Scanner(false, Chars(a) + Chars(b), [Chars(a), Chars(a) + Chars(b)]);
    ExtractVarsByTokens(text);
  }

  /** `{name{` fails, and the error points at the end of the line. */
  lemma ReopenFails(name: seq<byte>)
    requires Clean(name)
    ensures ExtractVarsSpec([LBRACE] + name + [LBRACE]) == Err(UnbalancedBrace(1, |name| + 2))
  {
    var text := [LBRACE] + name + [LBRACE];
    assert LF !in text by {
      forall k | 0 <= k < |text| ensures text[k] != LF {
        if 1 <= k <= |name| { assert text[k] == name[k - 1]; }
      }
    }
    SingleLine(text);
    CleanTokens(name);
    LineTokensConcat([LBRACE] + name, [LBRACE]);
    LineTokensConcat([LBRACE], name);
    assert LineTokens([LBRACE]) == [Open];
    var ts := [Open] + Plains(name) + [Open];
    assert TextTokens(text) == ts;
    assert ts[..|ts| - 1] + [ts[|ts| - 1]] == ts;
    ExtractVarsFails(text);
  }

  /** An escaped byte joins the accumulator even outside braces, and never
      opens or closes anything: `\\c{name}` captures `c` followed by `name`,
      whatever byte `c` is (other than a line feed). */
  lemma EscapeOutsideBraces(c: byte, name: seq<byte>)
    requires c != LF && Clean(name)
    ensures ExtractVarsSpec([BACKSLASH, c, LBRACE] + name + [RBRACE]) == Ok([[ByteChar(c)] + Chars(name)])
  {
    var capture := [LBRACE] + name + [RBRACE];
    var text := [BACKSLASH, c] + capture;
    assert text == [BACKSLASH, c, LBRACE] + name + [RBRACE];
    CleanNoLF(name, capture);
    assert LF !in text by {
      forall k | 0 <= k < |text| ensures text[k] != LF {
        if k >= 2 { assert text[k] == capture[k - 2]; }
      }
    }
    SingleLine(text);
    assert text[0] == BACKSLASH && text[1] == c && text[2..] == capture;
    assert LineTokens(text) == [Escaped(c)] + LineTokens(capture);
    CaptureTokens(name);
    var cap := [Open] + Plains(name) + [Close];
    var s1 := Scanner(false, [ByteChar(c)], []);
    assert Replay(Initial, [Escaped(c)]) == Replay(s1, []);
    ReplayConcat(Initial, [Escaped(c)], cap);
    ReplayCapture(s1, name);
    assert Replay(Initial, TextTokens(text)) == Scanner(false, [ByteChar(c)] + Chars(name), [[ByteChar(c)] + Chars(name)]);
    ExtractVarsByTokens(text);
  }

  /** `\\{name}`: the escaped `{` is kept as text, so `name` lies outside any
      brace and is ignored, and the `}` records just the `{`. */
  lemma EscapedBraceIsText(name: seq<byte>)
    requires Clean(name)
    ensures ExtractVarsSpec([BACKSLASH, LBRACE] + name + [RBRACE]) == Ok([[ByteChar(LBRACE)]])
  {
    var rest := name + [RBRACE];
    var text := [BACKSLASH, LBRACE] + rest;
    assert text == [BACKSLASH, LBRACE] + name + [RBRACE];
    CleanNoLF(name, text);
    SingleLine(text);
    assert text[0] == BACKSLASH && text[1] == LBRACE && text[2..] == rest;
    assert LineTokens(text) == [Escaped(LBRACE)] + LineTokens(rest);
    CleanTokens(name);
    LineTokensConcat(name, [RBRACE]);
    assert LineTokens([RBRACE]) == [Close] + LineTokens([]);
    var s1 := Scanner(false, [ByteChar(LBRACE)], []);
    assert Replay(Initial, [Escaped(LBRACE)]) == Replay(s1, []);
    ReplayConcat(Initial, [Escaped(LBRACE)], Plains(name) + [Close]);
    ReplayConcat(s1, Plains(name), [Close]);
    ReplayPlains(s1, name);
    assert Replay(s1, [Close]) == Replay(Apply(s1, Close), []);
    assert TextTokens(text) == [Escaped(LBRACE)] + (Plains(name) + [Close]);
    assert Replay(Initial, TextTokens(text)) == Scanner(false, [ByteChar(LBRACE)], [[ByteChar(LBRACE)]]);
    ExtractVarsByTokens(text);
  }

  /** A `}` records an entry even when no `{` is open. */
  lemma StrayCloseRecords()
    ensures ExtractVarsSpec([RBRACE]) == Ok([[]])
  {
    SingleLine([RBRACE]);
    assert LineTokens([RBRACE]) == [Close] + LineTokens([]);
    assert Replay(Initial, [Close]) == Replay(Scanner(false, [], [[]]), []);
    ExtractVarsByTokens([RBRACE]);
  }

  /** The escape flag is cleared at each new line: a `\\` that ends a line
      does not escape the `}` that starts the next, while `\\}` on one line
      records nothing. */
  lemma EscapeStopsAtLineEnd()
    ensures ExtractVarsSpec([BACKSLASH, LF, RBRACE]) == Ok([[]])
    ensures ExtractVarsSpec([BACKSLASH, RBRACE]) == Ok([])
  {
    var text: seq<byte> := [BACKSLASH, LF, RBRACE];
    assert IndexOf(text, LF) == 1;
    LinesUnfold(text);
    assert text[..1] == [BACKSLASH] && text[2..] == [RBRACE];
    SingleLine([RBRACE]);
    assert Lines(text) == [[BACKSLASH], [RBRACE]];
    assert LineTokens([BACKSLASH]) == [];
    assert LineTokens([RBRACE]) == [Close] + LineTokens([]);
    assert Tokens([[BACKSLASH], [RBRACE]]) == LineTokens([BACKSLASH]) + Tokens([[RBRACE]]);
    assert TextTokens(text) == [Close];
    assert Replay(Initial, [Close]) == Replay(Scanner(false, [], [[]]), []);
    ExtractVarsByTokens(text);
    var single: seq<byte> := [BACKSLASH, RBRACE];
    SingleLine(single);
    assert LineTokens(single) == [Escaped(RBRACE)] + LineTokens([]);
    assert Replay(Initial, [Escaped(RBRACE)]) == Replay(Scanner(false, [ByteChar(RBRACE)], []), []);
    ExtractVarsByTokens(single);
  }

  lemma {:induction false} IndexOfAfter(first: seq<byte>, rest: seq<byte>, b: byte)
    requires b !in first && rest != [] && rest[0] == b
    ensures IndexOf(first + rest, b) == |first|
    decreases |first|
  {
    if first != [] {
      assert (first + rest)[1..] == first[1..] + rest;
      IndexOfAfter(first[1..], rest, b);
    } else {
      assert first + rest == rest;
    }
  }

  lemma TwoLines(first: seq<byte>, second: seq<byte>)
    requires LF !in first && (first == [] || first[|first| - 1] != CR)
    requires LF !in second && second != []
    ensures Lines(first + [LF] + second) == [first, second]
  {
    LineInFront(first, second);
    SingleLine(second);
  }

  /** A line ended by `\n`, in front of any text, is the first line. */
  lemma LineInFront(first: seq<byte>, rest: seq<byte>)
    requires LF !in first && (first == [] || first[|first| - 1] != CR)
    ensures Lines(first + [LF] + rest) == [first] + Lines(rest)
  {
    var text := first + ([LF] + rest);
    assert first + [LF] + rest == text;
    IndexOfAfter(first, [LF] + rest, LF);
    var i := IndexOf(text, LF);
    assert text[..i] == first && text[i + 1..] == rest;
    LinesUnfold(text);
    assert StripCR(first) == first;
  }


  lemma OpenThenPlainTokens(a: seq<byte>, b: seq<byte>)
    requires Clean(a) && Clean(b)
    ensures Tokens([[LBRACE] + a, b]) == [Open] + (Plains(a) + Plains(b))
  {
    assert Tokens([[LBRACE] + a, b]) == LineTokens([LBRACE] + a) + Tokens([b]);
    assert Tokens([b]) == LineTokens(b) + Tokens([]);
    CleanTokens(a);
    CleanTokens(b);
    LineTokensConcat([LBRACE], a);
    assert LineTokens([LBRACE]) == [Open] + LineTokens([]);
  }

  /** An unclosed `{` is reported at the END of the text (the number of
      lines and the length of the last one), not where the `{` stands. */
  lemma UnclosedReportsEndOfText(a: seq<byte>, b: seq<byte>)
    requires Clean(a) && CR !in a && Clean(b) && b != []
    ensures ExtractVarsSpec([LBRACE] + a + [LF] + b) == Err(UnbalancedBrace(2, |b|))
  {
    var first := [LBRACE] + a;
    var text := first + [LF] + b;
    assert [LBRACE] + a + [LF] + b == text;
    CleanNoLF(a, first);
    assert first[|first| - 1] != CR by {
      if |a| > 0 { assert first[|first| - 1] == a[|a| - 1]; }
    }
    assert LF !in b by {
      forall k | 0 <= k < |b| ensures b[k] != LF { }
    }
    TwoLines(first, b);
    var ts := [Open] + (Plains(a) + Plains(b));
    OpenThenPlainTokens(a, b);
    assert TextTokens(text) == ts;
    ReplayConcat(Initial, [Open], Plains(a) + Plains(b));
    var s1 := Scanner(true, [], []);
    assert Replay(Initial, [Open]) == Replay(s1, []);
    ReplayConcat(s1, Plains(a), Plains(b));
    ReplayPlains(s1, a);
    ReplayPlains(Replay(s1, Plains(a)), b);
    assert Replay(Initial, ts).pairing;
    ExtractVarsByTokens(text);
  }

  // The byte texts of the repository's test, written out.
  const TestVar: seq<byte> := [84, 69, 83, 84, 95, 86, 65, 82]  // TEST_VAR
  const Digits: seq<byte> := [49, 49, 50, 50, 51, 51, 51]        // 1122333

  /** `{TEST_VAR}1122333` captures `TEST_VAR`; `{TEST_VAR{` is an error. */
  lemma RepositoryTestCases()
    ensures ExtractVarsSpec([LBRACE] + TestVar + [RBRACE] + Digits) == Ok(["TEST_VAR"])
    ensures ExtractVarsSpec([LBRACE] + TestVar + [LBRACE]).Err?
  {
    CaptureThenText(TestVar, Digits);
    assert Chars(TestVar) == "TEST_VAR";
    ReopenFails(TestVar);
  }

  /** `{A}{B}` captures `A` and then `AB`. */
  lemma AccumulatorExample()
    ensures ExtractVarsSpec([LBRACE, 65, RBRACE, LBRACE, 66, RBRACE]) == Ok(["A", "AB"])
  {
    TwoCaptures([65], [66]);
    assert [LBRACE] + [65] + [RBRACE, LBRACE] + [66] + [RBRACE] == [LBRACE, 65, RBRACE, LBRACE, 66, RBRACE];
    assert Chars([65]) == "A" && Chars([66]) == "B";
    assert "A" + "B" == "AB";
  }
}
