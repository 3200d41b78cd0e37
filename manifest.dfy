/** The service manifest record and the placeholder scanner that runs over the
    raw manifest text (src/manifest.rs).

    The scanner works on the BYTES of the text: it walks the lines that Rust's
    `str::lines` yields and, inside each line, one byte at a time, turning
    every byte it keeps into the `char` with the same code. */
module Manifest {
  import opened Wrappers
  import opened Seqs

  newtype byte = x: int | 0 <= x < 256

  const LF: byte := 10
  const CR: byte := 13
  const BACKSLASH: byte := 92
  const LBRACE: byte := 123
  const RBRACE: byte := 125

  /** `ManifestContentScripts` */
  datatype Scripts = Scripts(
    healthCheck: string,
    preStart: Option<string>,
    start: string,
    stop: Option<string>,
    postStop: Option<string>)

  /** `ManifestContent`; `vars` is skipped by (de)serialisation. */
  datatype ManifestContent = ManifestContent(
    name: string,
    enable: Option<bool>,
    scripts: Scripts,
    vars: seq<string>)

  /** `ManifestContent::default()`: empty strings, absent options. */
  const DefaultManifest := ManifestContent("", None, Scripts("", None, "", None, None), [])

  /** `*ele as char`: a byte becomes the character of the same code. */
  function ByteChar(b: byte): char
  {
    (b as int) as char
  }

  // ---------------------------------------------------------------------
  // Lines, as `str::lines` produces them
  // ---------------------------------------------------------------------

  /** Position of the first `b` in `s`, or `|s|` when there is none. */
  function IndexOf(s: seq<byte>, b: byte): (i: nat)
    ensures i <= |s|
    ensures i < |s| ==> s[i] == b
    ensures forall j :: 0 <= j < i ==> s[j] != b
  {
    if s == [] || s[0] == b then 0 else 1 + IndexOf(s[1..], b)
  }

  /** A `\r` directly in front of the `\n` belongs to the line ending. */
  function StripCR(l: seq<byte>): (r: seq<byte>)
    ensures r == l || (|l| > 0 && l[|l| - 1] == CR && r == l[..|l| - 1])
  {
    if |l| > 0 && l[|l| - 1] == CR then l[..|l| - 1] else l
  }

  /** The lines of `text`: split after every `\n`, the ending (`\n` or
      `\r\n`) removed, and no empty line after a final `\n`. */
  function Lines(text: seq<byte>): (ls: seq<seq<byte>>)
    ensures forall k :: 0 <= k < |ls| ==> LF !in ls[k]
    ensures text == [] <==> ls == []
    decreases |text|
  {
    if text == [] then []
    else
      var i := IndexOf(text, LF);
      if i == |text| then [text]
      else [StripCR(text[..i])] + Lines(text[i + 1..])
  }

  /** Number of bytes in the last line; 0 when there is none. */
  function LastLength(ls: seq<seq<byte>>): nat
  {
    if ls == [] then 0 else |ls[|ls| - 1]|
  }

  // ---------------------------------------------------------------------
  // The scanner as a state machine (the specification of ExtractVars)
  // ---------------------------------------------------------------------

  /** What survives from one byte to the next: the `pairing` flag, the
      accumulator `var` (never cleared) and the captured names `vars`. */
  datatype Scanner = Scanner(pairing: bool, acc: string, vars: seq<string>)

  const Initial := Scanner(false, [], [])

  /** One byte; `skip` says that the previous byte was an unescaped `\`.
      Returns the new scanner and the new `skip`. */
  function Step(s: Scanner, skip: bool, b: byte): (Scanner, bool)
  {
    if skip then (s.(acc := s.acc + [ByteChar(b)]), false)
    else if b == BACKSLASH then (s, true)
    else if b == LBRACE then (s.(pairing := true), false)
    else if b == RBRACE then (s.(pairing := false, vars := s.vars + [s.acc]), false)
    else if s.pairing then (s.(acc := s.acc + [ByteChar(b)]), false)
    else (s, false)
  }

  function ScanLine(s: Scanner, skip: bool, bytes: seq<byte>): Scanner
    decreases |bytes|
  {
    if bytes == [] then s
    else
      var (s', skip') := Step(s, skip, bytes[0]);
      ScanLine(s', skip', bytes[1..])
  }

  /** Every line starts with `skip` cleared. */
  function ScanLines(s: Scanner, ls: seq<seq<byte>>): Scanner
    decreases |ls|
  {
    if ls == [] then s else ScanLines(ScanLine(s, false, ls[0]), ls[1..])
  }

  /** What `extract_vars` returns for `text`. */
  function ExtractVarsSpec(text: seq<byte>): Result<seq<string>, Error>
  {
    var ls := Lines(text);
    var last := ScanLines(Initial, ls);
    if last.pairing then Err(UnbalancedBrace(|ls|, LastLength(ls))) else Ok(last.vars)
  }

  // ---------------------------------------------------------------------
  // The code: nested loops over lines and bytes
  // ---------------------------------------------------------------------

  /** `ManifestContent::extract_vars`. */
  method ExtractVars(content: seq<byte>) returns (r: Result<seq<string>, Error>)
    ensures r == ExtractVarsSpec(content)
  {
    var vars: seq<string> := [];
    var pairing := false;
    var line, offset := 0, 0;
    var lpairLine, lpairOffset := 0, 0;  // written, never read
    var acc: string := [];
    var ls := Lines(content);
    var i := 0;
    while i < |ls|
      invariant 0 <= i <= |ls|
      invariant line == i
      invariant offset == LastLength(ls[..i])
      invariant ScanLines(Scanner(pairing, acc, vars), ls[i..]) == ScanLines(Initial, ls)
    {
      line := line + 1;
      offset := 0;
      var skip := false;
      var bytes := ls[i];
      ghost var atLineStart := Scanner(pairing, acc, vars);
      var j := 0;
      while j < |bytes|
        invariant 0 <= j <= |bytes|
        invariant offset == j
        invariant ScanLine(Scanner(pairing, acc, vars), skip, bytes[j..]) == ScanLine(atLineStart, false, bytes)
      {
        offset := offset + 1;
        var b := bytes[j];
        if skip {
          skip := false;
          acc := acc + [ByteChar(b)];
        } else if b == BACKSLASH {
          skip := true;
        } else if b == LBRACE {
          pairing := true;
          lpairLine, lpairOffset := line, offset;
        } else if b == RBRACE {
          pairing := false;
          vars := vars + [acc];
        } else if pairing {
          acc := acc + [ByteChar(b)];
        }
        j := j + 1;
      }
      assert ls[..i + 1][..i] == ls[..i];
      i := i + 1;
    }
    assert ls[..i] == ls;
    if pairing {
      return Err(UnbalancedBrace(line, offset));
    }
    return Ok(vars);
  }

  /** `ManifestContent::new`, with the TOML parse of `content` given as
      `parsed` (its `vars` are empty, the field being skipped). */
  method New(content: seq<byte>, parsed: Result<ManifestContent, Error>) returns (r: Result<ManifestContent, Error>)
    ensures parsed.Err? ==> r == Err(parsed.error)
    ensures parsed.Ok? && ExtractVarsSpec(content).Err? ==> r == Err(ExtractVarsSpec(content).error)
    ensures parsed.Ok? && ExtractVarsSpec(content).Ok? ==>
      r == Ok(parsed.value.(vars := ExtractVarsSpec(content).value))
  {
    if parsed.Err? {
      return Err(parsed.error);
    }
    var manifest := parsed.value;
    var vars := ExtractVars(content);
    if vars.Err? {
      return Err(vars.error);
    }
    manifest := manifest.(vars := vars.value);
    return Ok(manifest);
  }
}
