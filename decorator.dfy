/** The decorator layer (`stream_processor/api/decorator.py`): `_repack`, which
    cuts a list of characters into the items of a yield mode, and the driver
    loop of the synchronous generator wrapper `sync_wrap`. */
module Decorator {
  import opened Wrappers
  import opened Trie
  import opened Automaton
  import opened TrieBuild
  import opened Registry
  import opened ProcessorSpec
  import opened Processor

  // ---------------------------------------------------------------------------
  // `_repack`

  /** The `ValueError`s `_repack` raises. */
  datatype RepackError =
    | InvalidChunkSize      // the text after `chunk:` is not an integer
    | NonPositiveChunkSize  // `chunk:n` with `n <= 0`
    | UnknownMode           // neither `char`, `token` nor `chunk:...`

  /** `''.join(items)`. */
  function Concat(items: seq<string>): seq<char> {
    if items == [] then [] else items[0] + Concat(items[1..])
  }

  lemma {:induction false} ConcatAppend(a: seq<string>, b: seq<string>)
    ensures Concat(a + b) == Concat(a) + Concat(b)
    decreases |a|
  {
    if a != [] {
      assert (a + b)[0] == a[0] && (a + b)[1..] == a[1..] + b;
      ConcatAppend(a[1..], b);
      calc {
        Concat(a + b);
        (a + b)[0] + Concat((a + b)[1..]);
        a[0] + Concat(a[1..] + b);
        a[0] + (Concat(a[1..]) + Concat(b));
        Concat(a) + Concat(b);
      }
    } else {
      assert a + b == b;
    }
  }

  /** The ASCII whitespace `int()` ignores around its argument. */
  predicate IsSpace(c: char) {
    c == ' ' || c == '\t' || c == '\n' || c == '\r' || c == 11 as char || c == 12 as char
  }

  /** `text` without its leading whitespace. */
  function StripLeft(text: string): (r: string)
    ensures |r| <= |text| && r == text[|text| - |r|..]
    ensures forall i :: 0 <= i < |text| - |r| ==> IsSpace(text[i])
    ensures r != [] ==> !IsSpace(r[0])
  {
    if text != [] && IsSpace(text[0]) then StripLeft(text[1..]) else text
  }

  /** `text` without its trailing whitespace. */
  function StripRight(text: string): (r: string)
    ensures |r| <= |text| && r == text[..|r|]
    ensures forall i :: |r| <= i < |text| ==> IsSpace(text[i])
    ensures r != [] ==> !IsSpace(r[|r| - 1])
  {
    if text != [] && IsSpace(text[|text| - 1]) then StripRight(text[..|text| - 1]) else text
  }

  predicate IsDigit(c: char) {
    '0' <= c <= '9'
  }

  predicate AllDigits(s: string) {
    forall i :: 0 <= i < |s| ==> IsDigit(s[i])
  }

  /** A non-empty string of decimal digits. */
  predicate IsNumeral(d: string) {
    d != [] && AllDigits(d)
  }

  /** The value of a string of decimal digits. */
  function DigitsValue(s: string): nat
    requires AllDigits(s)
  {
    if s == [] then 0
    else
      assert IsDigit(s[|s| - 1]);
      DigitsValue(s[..|s| - 1]) * 10 + (s[|s| - 1] as int - '0' as int)
  }

  /** `int(text)` once the surrounding whitespace is gone: an optional sign, then
      one or more decimal digits. */
  function ParseSigned(t: string): Option<int> {
    var signed := t != [] && (t[0] == '-' || t[0] == '+');
    var digits := if signed then t[1..] else t;
    if digits != [] && AllDigits(digits) then
      Some(if t[0] == '-' then -(DigitsValue(digits) as int) else DigitsValue(digits) as int)
    else
      None
  }

  /** `int(text)` for base-10 text: optional surrounding whitespace, an optional
      sign, then one or more decimal digits; anything else raises `ValueError`
      (`None` here). */
  function ParseInt(text: string): Option<int> {
    ParseSigned(StripRight(StripLeft(text)))
  }

  /** Text that neither starts nor ends with whitespace is parsed as it is. */
  lemma Unpadded(t: string)
    requires t != [] && !IsSpace(t[0]) && !IsSpace(t[|t| - 1])
    ensures ParseInt(t) == ParseSigned(t)
  {
    assert StripLeft(t) == t;
    assert StripRight(t) == t;
  }

  /** A numeral, with or without a sign, is read as its value. */
  lemma SignedNumeral(d: string)
    requires IsNumeral(d)
    ensures ParseSigned(d) == Some(DigitsValue(d) as int)
    ensures ParseSigned("-" + d) == Some(-(DigitsValue(d) as int))
    ensures ParseSigned("+" + d) == Some(DigitsValue(d) as int)
  {
    assert IsDigit(d[0]);
    assert ("-" + d)[1..] == d && ("+" + d)[1..] == d;
  }

  /** A numeral, with or without a sign, is read back by `int()`. */
  lemma NumeralParses(d: string)
    requires IsNumeral(d)
    ensures ParseInt(d) == Some(DigitsValue(d) as int)
    ensures ParseInt("-" + d) == Some(-(DigitsValue(d) as int))
    ensures ParseInt("+" + d) == Some(DigitsValue(d) as int)
  {
    assert IsDigit(d[0]) && IsDigit(d[|d| - 1]);
    SignedNumeral(d);
    assert ParseInt(d) == ParseSigned(d) by {
      Unpadded(d);
    }
    assert ParseInt("-" + d) == ParseSigned("-" + d) by {
      var t := "-" + d;
      assert t[0] == '-' && t[|t| - 1] == d[|d| - 1];
      Unpadded(t);
    }
    assert ParseInt("+" + d) == ParseSigned("+" + d) by {
      var t := "+" + d;
      assert t[0] == '+' && t[|t| - 1] == d[|d| - 1];
      Unpadded(t);
    }
  }

  /** `[chars[i:i+size] for i in range(0, len(chars), size)]`: consecutive
      slices of `size` characters, the last one possibly shorter. */
  function Chunks(chars: seq<char>, size: nat): (r: seq<string>)
    requires size > 0
    ensures Concat(r) == chars
    ensures forall i :: 0 <= i < |r| ==> 0 < |r[i]| <= size
    ensures forall i :: 0 <= i < |r| - 1 ==> |r[i]| == size
    decreases |chars|
  {
    if chars == [] then []
    else if |chars| <= size then
      assert [chars][1..] == [];
      [chars]
    else
      var rest := Chunks(chars[size..], size);
      assert ([chars[..size]] + rest)[1..] == rest;
      [chars[..size]] + rest
  }

  /** `for c in chars: yield c`. */
  function Singletons(chars: seq<char>): (r: seq<string>)
    ensures |r| == |chars| && Concat(r) == chars
    ensures forall i :: 0 <= i < |r| ==> r[i] == [chars[i]]
    decreases |chars|
  {
    if chars == [] then []
    else
      var rest := Singletons(chars[1..]);
      assert ([[chars[0]]] + rest)[1..] == rest;
      [[chars[0]]] + rest
  }

  lemma {:induction false} SingletonsAppend(a: seq<char>, b: seq<char>)
    ensures Singletons(a + b) == Singletons(a) + Singletons(b)
  {
    var l, r := Singletons(a + b), Singletons(a) + Singletons(b);
    assert |l| == |r|;
    forall i | 0 <= i < |l| ensures l[i] == r[i] {
      if i < |a| {
        assert (a + b)[i] == a[i];
      } else {
        assert (a + b)[i] == b[i - |a|];
      }
    }
  }

  /** `_repack(chars, mode)`: the items the generator yields, or the error it
      raises. Whatever the mode, the items put together give back `chars`. */
  function Repack(chars: seq<char>, mode: string): (r: Result<seq<string>, RepackError>)
    ensures r.Ok? ==> Concat(r.value) == chars
    ensures mode == "char" ==> r.Ok? && |r.value| == |chars| && forall i :: 0 <= i < |chars| ==> r.value[i] == [chars[i]]
    ensures mode == "token" ==> r.Ok? && |r.value| == 1
    ensures mode != "char" && mode != "token" && !("chunk:" <= mode) ==> r == Err(UnknownMode)
  {
    if mode == "char" then
      Ok(Singletons(chars))
    else if mode == "token" then
      assert [chars][1..] == [];
      Ok([chars])
    else if "chunk:" <= mode then
      match ParseInt(mode[6..])
      case None => Err(InvalidChunkSize)
      case Some(size) => if size <= 0 then Err(NonPositiveChunkSize) else Ok(Chunks(chars, size))
    else
      Err(UnknownMode)
  }

  /** A mode spelt `chunk:` followed by `text` is read as a chunk mode whose
      size is `int(text)`. */
  lemma ChunkSpelling(chars: seq<char>, text: string)
    ensures var r := Repack(chars, "chunk:" + text);
      match ParseInt(text)
      case None => r == Err(InvalidChunkSize)
      case Some(size) => r == (if size <= 0 then Err(NonPositiveChunkSize) else Ok(Chunks(chars, size)))
  {
    var mode := "chunk:" + text;
    assert mode[2] != "char"[2];
    assert mode[0] != "token"[0];
    assert mode[..6] == "chunk:" && mode[6..] == text;
  }

  /** `chunk:` followed by a numeral of a positive value `n` cuts `chars` into
      slices of `n`; empty input gives no item at all. */
  lemma ChunkMode(chars: seq<char>, d: string)
    requires IsNumeral(d) && DigitsValue(d) > 0
    ensures Repack(chars, "chunk:" + d) == Ok(Chunks(chars, DigitsValue(d)))
    ensures chars == [] ==> Repack(chars, "chunk:" + d) == Ok([])
  {
    ChunkSpelling(chars, d);
    NumeralParses(d);
  }

  /** A size that is zero or negative is refused. */
  lemma NonPositiveChunk(chars: seq<char>, d: string)
    requires IsNumeral(d)
    ensures DigitsValue(d) == 0 ==> Repack(chars, "chunk:" + d) == Err(NonPositiveChunkSize)
    ensures Repack(chars, "chunk:" + ("-" + d)) == Err(NonPositiveChunkSize)
  {
    NumeralParses(d);
    ChunkSpelling(chars, d);
    ChunkSpelling(chars, "-" + d);
  }

  /** A numeral with an optional sign in front. */
  predicate IsSignedNumeral(t: string) {
    IsNumeral(t) || (t != [] && (t[0] == '-' || t[0] == '+') && IsNumeral(t[1..]))
  }

  /** `int()` fails exactly on text that, once its surrounding whitespace is
      gone, is not a numeral with an optional sign. */
  lemma ParseSignedFails(t: string)
    ensures ParseSigned(t).None? <==> !IsSignedNumeral(t)
  {
    if t != [] && (t[0] == '-' || t[0] == '+') {
      assert !IsDigit(t[0]);
    }
  }

  /** A size that is missing, or is anything but an integer, is refused: the
      invalid-size error is raised exactly when the text after `chunk:`, without
      its surrounding whitespace, is not a numeral with an optional sign. So
      `chunk:`, `chunk:abc`, `chunk:3a` and `chunk:3.5` all raise it. */
  lemma InvalidChunk(chars: seq<char>, text: string)
    ensures Repack(chars, "chunk:" + text) == Err(InvalidChunkSize) <==> !IsSignedNumeral(StripRight(StripLeft(text)))
    ensures Repack(chars, "chunk:") == Err(InvalidChunkSize)
  {
    ChunkSpelling(chars, text);
    ParseSignedFails(StripRight(StripLeft(text)));
    ChunkSpelling(chars, []);
    assert "chunk:" + [] == "chunk:";
    assert StripRight(StripLeft([])) == [];
  }

  /** Whether `_repack` raises depends only on the mode: the error is raised
      even for an empty list of characters. */
  lemma RepackErrorIgnoresInput(chars: seq<char>, mode: string)
    ensures Repack(chars, mode).Err? == Repack([], mode).Err?
    ensures Repack(chars, mode).Err? ==> Repack(chars, mode) == Repack([], mode)
  {
    if mode != "char" && mode != "token" && "chunk:" <= mode {
      match ParseInt(mode[6..])
      case None =>
      case Some(size) =>
    }
  }

  // ---------------------------------------------------------------------------
  // `sync_wrap`: reference semantics

  /** The characters of one token fed to `process` one by one: the state after,
      what the calls returned, and whether one of them raised `StreamHalted`
      (the characters after it are not fed). */
  datatype Fed = Fed(state: ProcState, out: seq<char>, halted: bool)

  /** `f` with `o` returned before it. */
  function Prepend(o: seq<char>, f: Fed): Fed {
    f.(out := o + f.out)
  }

  function Feed(cfg: Config, s: ProcState, cs: seq<char>, invoke: Invoke): Fed
    requires [] in cfg.trie
    decreases |cs|
  {
    if cs == [] then Fed(s, [], false)
    else
      var (s1, r) := ProcessSpec(cfg, s, cs[0], invoke);
      match r
      case Halted => Fed(s1, [], true)
      case Emitted(o) => Prepend(o, Feed(cfg, s1, cs[1..], invoke))
  }

  /** What a run of the token-mode loop yields, where it leaves the processor,
      and whether it ended on a halt. */
  datatype Run = Run(items: seq<string>, state: ProcState, halted: bool)

  /** `r` with `items` yielded before it. */
  function Precede(items: seq<string>, r: Run): Run {
    r.(items := items + r.items)
  }

  /** One token in token mode: its characters are processed, then the processor
      is flushed; the text is what both returned. */
  function FeedAndFlush(cfg: Config, s: ProcState, token: string, invoke: Invoke): Fed
    requires [] in cfg.trie
  {
    var f := Feed(cfg, s, token, invoke);
    var (s2, rem) := FlushSpec(cfg, f.state);
    Fed(s2, f.out + rem, f.halted)
  }

  /** Token mode: one text per token, yielded even when empty. After a halt the
      text is yielded only when non-empty, and the generator returns. */
  function TokenMode(cfg: Config, s: ProcState, tokens: seq<string>, invoke: Invoke): Run
    requires [] in cfg.trie
    decreases |tokens|
  {
    if tokens == [] then Run([], s, false)
    else
      var g := FeedAndFlush(cfg, s, tokens[0], invoke);
      if g.halted then Run(if g.out != [] then [g.out] else [], g.state, true)
      else Precede([g.out], TokenMode(cfg, g.state, tokens[1..], invoke))
  }

  /** What the wrapped generator yields, and the `ValueError` it ends with, if any. */
  datatype Yielded = Yielded(items: seq<string>, error: Option<RepackError>)

  /** `y` with `items` yielded before it. */
  function Extend(items: seq<string>, y: Yielded): Yielded {
    y.(items := items + y.items)
  }

  /** Character and chunk modes: each token's output is repacked and yielded, and
      the processor is flushed only once the tokens run out. A halt ends the
      generator silently and loses the output of the halting token. */
  function StreamMode(cfg: Config, s: ProcState, tokens: seq<string>, mode: string, invoke: Invoke): Yielded
    requires [] in cfg.trie
    decreases |tokens|
  {
    if tokens == [] then
      var rem := FlushSpec(cfg, s).1;
      if rem == [] then Yielded([], None)
      else
        match Repack(rem, mode)
        case Err(e) => Yielded([], Some(e))
        case Ok(items) => Yielded(items, None)
    else
      var f := Feed(cfg, s, tokens[0], invoke);
      if f.halted then Yielded([], None)
      else
        match Repack(f.out, mode)
        case Err(e) => Yielded([], Some(e))
        case Ok(items) => Extend(items, StreamMode(cfg, f.state, tokens[1..], mode, invoke))
  }

  /** `sync_wrap` over the tokens of the wrapped generator, on a fresh processor. */
  function WrapSpec(cfg: Config, tokens: seq<string>, mode: string, invoke: Invoke): Yielded
    requires [] in cfg.trie
  {
    if mode == "token" then Yielded(TokenMode(cfg, Initial, tokens, invoke).items, None)
    else StreamMode(cfg, Initial, tokens, mode, invoke)
  }

  /** One step of token mode: the first token is fed and the processor flushed. */
  lemma TokenModeCons(cfg: Config, s: ProcState, tokens: seq<string>, invoke: Invoke)
    requires [] in cfg.trie && tokens != []
    ensures var g := FeedAndFlush(cfg, s, tokens[0], invoke);
            var r := TokenMode(cfg, s, tokens, invoke);
            && (g.halted ==> r.state == g.state && r.halted && |r.items| <= 1)
            && (!g.halted ==> r == Precede([g.out], TokenMode(cfg, g.state, tokens[1..], invoke)))
  {
  }

  /** One step of the stream modes: the first token is fed, then repacked. */
  lemma StreamModeCons(cfg: Config, s: ProcState, tokens: seq<string>, mode: string, invoke: Invoke)
    requires [] in cfg.trie && tokens != []
    ensures var f := Feed(cfg, s, tokens[0], invoke);
            var y := StreamMode(cfg, s, tokens, mode, invoke);
            && (f.halted ==> y == Yielded([], None))
            && (!f.halted && Repack(f.out, mode).Err? ==> y == Yielded([], Some(Repack(f.out, mode).error)))
            && (!f.halted && Repack(f.out, mode).Ok? ==>
                  y == Extend(Repack(f.out, mode).value, StreamMode(cfg, f.state, tokens[1..], mode, invoke)))
  {
  }

  /** One step of `Feed`: the first character is processed; a halt stops the
      token, otherwise what the call returned comes first. */
  lemma FeedCons(cfg: Config, s: ProcState, cs: seq<char>, invoke: Invoke)
    requires [] in cfg.trie && cs != []
    ensures var (s1, r) := ProcessSpec(cfg, s, cs[0], invoke);
            && (r.Halted? ==> Feed(cfg, s, cs, invoke) == Fed(s1, [], true))
            && (r.Emitted? ==> Feed(cfg, s, cs, invoke) == Prepend(r.chars, Feed(cfg, s1, cs[1..], invoke)))
  {
  }

  /** Returning `a` and then `b` before `f` is returning `a + b` before it. */
  lemma PrependTwice(a: seq<char>, b: seq<char>, f: Fed)
    ensures Prepend(a, Prepend(b, f)) == Prepend(a + b, f)
  {
    assert a + (b + f.out) == (a + b) + f.out;
  }

  /** Yielding `a` and then `b` before `r` is yielding `a + b` before it. */
  lemma PrecedeTwice(a: seq<string>, b: seq<string>, r: Run)
    ensures Precede(a, Precede(b, r)) == Precede(a + b, r)
  {
    assert a + (b + r.items) == (a + b) + r.items;
  }

  /** Yielding `a` and then `b` before `y` is yielding `a + b` before it. */
  lemma ExtendTwice(a: seq<string>, b: seq<string>, y: Yielded)
    ensures Extend(a, Extend(b, y)) == Extend(a + b, y)
  {
    assert a + (b + y.items) == (a + b) + y.items;
  }

  // ---------------------------------------------------------------------------
  // Single steps of the reference semantics, in the form the driver loops use

  lemma FeedStart(cfg: Config, s: ProcState, cs: seq<char>, invoke: Invoke)
    requires [] in cfg.trie
    ensures Feed(cfg, s, cs, invoke) == Prepend([], Feed(cfg, s, cs[0..], invoke))
  {
    assert cs[0..] == cs;
    assert [] + Feed(cfg, s, cs, invoke).out == Feed(cfg, s, cs, invoke).out;
  }

  lemma FeedAdvance(cfg: Config, s: ProcState, cs: seq<char>, i: nat, invoke: Invoke,
                    s1: ProcState, r: Outcome, out: seq<char>, goal: Fed)
    requires [] in cfg.trie && i < |cs|
    requires (s1, r) == ProcessSpec(cfg, s, cs[i], invoke)
    requires goal == Prepend(out, Feed(cfg, s, cs[i..], invoke))
    ensures r.Halted? ==> goal == Fed(s1, out, true)
    ensures r.Emitted? ==> goal == Prepend(out + r.chars, Feed(cfg, s1, cs[i + 1..], invoke))
  {
    var rest := cs[i..];
    assert rest[0] == cs[i] && rest[1..] == cs[i + 1..];
    FeedCons(cfg, s, rest, invoke);
    if r.Emitted? {
      PrependTwice(out, r.chars, Feed(cfg, s1, cs[i + 1..], invoke));
    } else {
      assert out + [] == out;
    }
  }

  lemma FeedEnd(cfg: Config, s: ProcState, cs: seq<char>, invoke: Invoke, out: seq<char>, goal: Fed)
    requires [] in cfg.trie
    requires goal == Prepend(out, Feed(cfg, s, cs[|cs|..], invoke))
    ensures goal == Fed(s, out, false)
  {
    assert cs[|cs|..] == [];
    assert out + [] == out;
  }

  lemma FeedThenFlush(cfg: Config, s: ProcState, token: string, invoke: Invoke, f: Fed, s2: ProcState, rem: seq<char>)
    requires [] in cfg.trie
    requires f == Feed(cfg, s, token, invoke)
    requires (s2, rem) == FlushSpec(cfg, f.state)
    ensures FeedAndFlush(cfg, s, token, invoke) == Fed(s2, f.out + rem, f.halted)
  {
  }

  lemma TokenStart(cfg: Config, s: ProcState, tokens: seq<string>, invoke: Invoke)
    requires [] in cfg.trie
    ensures TokenMode(cfg, s, tokens, invoke) == Precede([], TokenMode(cfg, s, tokens[0..], invoke))
  {
    assert tokens[0..] == tokens;
    assert [] + TokenMode(cfg, s, tokens, invoke).items == TokenMode(cfg, s, tokens, invoke).items;
  }

  lemma TokenAdvance(cfg: Config, s: ProcState, tokens: seq<string>, i: nat, invoke: Invoke,
                     g: Fed, items: seq<string>, goal: Run)
    requires [] in cfg.trie && i < |tokens|
    requires g == FeedAndFlush(cfg, s, tokens[i], invoke)
    requires goal == Precede(items, TokenMode(cfg, s, tokens[i..], invoke))
    ensures g.halted && g.out != [] ==> goal == Run(items + [g.out], g.state, true)
    ensures g.halted && g.out == [] ==> goal == Run(items, g.state, true)
    ensures !g.halted ==> goal == Precede(items + [g.out], TokenMode(cfg, g.state, tokens[i + 1..], invoke))
  {
    var rest := tokens[i..];
    assert rest[0] == tokens[i] && rest[1..] == tokens[i + 1..];
    TokenModeCons(cfg, s, rest, invoke);
    if g.halted {
      if g.out == [] {
        assert TokenMode(cfg, s, rest, invoke) == Run([], g.state, true);
        assert items + [] == items;
      } else {
        assert TokenMode(cfg, s, rest, invoke) == Run([g.out], g.state, true);
      }
    } else {
      PrecedeTwice(items, [g.out], TokenMode(cfg, g.state, tokens[i + 1..], invoke));
    }
  }

  lemma TokenEnd(cfg: Config, s: ProcState, tokens: seq<string>, invoke: Invoke, items: seq<string>, goal: Run)
    requires [] in cfg.trie
    requires goal == Precede(items, TokenMode(cfg, s, tokens[|tokens|..], invoke))
    ensures goal == Run(items, s, false)
  {
    assert tokens[|tokens|..] == [];
    assert items + [] == items;
  }

  lemma StreamStart(cfg: Config, s: ProcState, tokens: seq<string>, mode: string, invoke: Invoke)
    requires [] in cfg.trie
    ensures StreamMode(cfg, s, tokens, mode, invoke) == Extend([], StreamMode(cfg, s, tokens[0..], mode, invoke))
  {
    assert tokens[0..] == tokens;
    assert [] + StreamMode(cfg, s, tokens, mode, invoke).items == StreamMode(cfg, s, tokens, mode, invoke).items;
  }

  lemma StreamAdvance(cfg: Config, s: ProcState, tokens: seq<string>, i: nat, mode: string, invoke: Invoke,
                      f: Fed, items: seq<string>, goal: Yielded)
    requires [] in cfg.trie && i < |tokens|
    requires f == Feed(cfg, s, tokens[i], invoke)
    requires goal == Extend(items, StreamMode(cfg, s, tokens[i..], mode, invoke))
    ensures f.halted ==> goal == Yielded(items, None)
    ensures !f.halted && Repack(f.out, mode).Err? ==> goal == Yielded(items, Some(Repack(f.out, mode).error))
    ensures !f.halted && Repack(f.out, mode).Ok? ==>
              goal == Extend(items + Repack(f.out, mode).value, StreamMode(cfg, f.state, tokens[i + 1..], mode, invoke))
  {
    var rest := tokens[i..];
    assert rest[0] == tokens[i] && rest[1..] == tokens[i + 1..];
    StreamModeCons(cfg, s, rest, mode, invoke);
    if !f.halted && Repack(f.out, mode).Ok? {
      ExtendTwice(items, Repack(f.out, mode).value, StreamMode(cfg, f.state, tokens[i + 1..], mode, invoke));
    } else {
      assert items + [] == items;
    }
  }

  lemma StreamEnd(cfg: Config, s: ProcState, tokens: seq<string>, mode: string, invoke: Invoke,
                  s2: ProcState, rem: seq<char>, items: seq<string>, goal: Yielded)
    requires [] in cfg.trie
    requires (s2, rem) == FlushSpec(cfg, s)
    requires goal == Extend(items, StreamMode(cfg, s, tokens[|tokens|..], mode, invoke))
    ensures rem == [] ==> goal == Yielded(items, None)
    ensures rem != [] && Repack(rem, mode).Err? ==> goal == Yielded(items, Some(Repack(rem, mode).error))
    ensures rem != [] && Repack(rem, mode).Ok? ==> goal == Yielded(items + Repack(rem, mode).value, None)
  {
    assert tokens[|tokens|..] == [];
    assert items + [] == items;
  }

  // ---------------------------------------------------------------------------
  // `sync_wrap`: the driver loops

  /** `for ch in token: out_chars.extend(sp.process(ch))`, stopping at `StreamHalted`. */
  method FeedToken(sp: StreamProcessor, token: string, invoke: Invoke) returns (out: seq<char>, halted: bool)
    requires sp.Valid()
    modifies sp, sp.history.Repr()
    ensures sp.Valid()
    ensures Feed(sp.Cfg(), old(sp.State()), token, invoke) == Fed(sp.State(), out, halted)
  {
    ghost var cfg := sp.Cfg();
    FeedStart(cfg, sp.State(), token, invoke);
    ghost var goal := Feed(cfg, sp.State(), token, invoke);
    out, halted := [], false;
    var i := 0;
    while i < |token|
      invariant 0 <= i <= |token|
      invariant sp.Valid()
      invariant goal == Prepend(out, Feed(cfg, sp.State(), token[i..], invoke))
    {
      ghost var s := sp.State();
      var r := sp.Process(token[i], invoke);
      FeedAdvance(cfg, s, token, i, invoke, sp.State(), r, out, goal);
      if r.Halted? {
        halted := true;
        return;
      }
      out := out + r.chars;
      i := i + 1;
    }
    FeedEnd(cfg, sp.State(), token, invoke, out, goal);
  }

  /** `sp.flush()` on a processor that keeps its invariant. */
  method FlushValid(sp: StreamProcessor) returns (rem: seq<char>)
    requires sp.Valid()
    modifies sp`buffer, sp.history.Repr()
    ensures sp.Valid()
    ensures (sp.State(), rem) == FlushSpec(sp.Cfg(), old(sp.State()))
  {
    rem := sp.Flush();
    assert unchanged(sp`node, sp`pos, sp`consumed, sp`sinceReset);
  }

  /** One token in token mode: process its characters, stopping at a halt, then flush. */
  method TokenStep(sp: StreamProcessor, token: string, invoke: Invoke) returns (text: seq<char>, halted: bool)
    requires sp.Valid()
    modifies sp, sp.history.Repr()
    ensures sp.Valid()
    ensures FeedAndFlush(sp.Cfg(), old(sp.State()), token, invoke) == Fed(sp.State(), text, halted)
  {
    ghost var cfg, s := sp.Cfg(), sp.State();
    var out;
    out, halted := FeedToken(sp, token, invoke);
    ghost var f := Fed(sp.State(), out, halted);
    var rem := FlushValid(sp);
    FeedThenFlush(cfg, s, token, invoke, f, sp.State(), rem);
    text := out + rem;
  }

  /** The token-mode loop of `sync_wrap`. */
  method TokenLoop(sp: StreamProcessor, tokens: seq<string>, invoke: Invoke) returns (items: seq<string>, halted: bool)
    requires sp.Valid()
    modifies sp, sp.history.Repr()
    ensures sp.Valid()
    ensures TokenMode(sp.Cfg(), old(sp.State()), tokens, invoke) == Run(items, sp.State(), halted)
  {
    ghost var cfg := sp.Cfg();
    TokenStart(cfg, sp.State(), tokens, invoke);
    ghost var goal := TokenMode(cfg, sp.State(), tokens, invoke);
    items, halted := [], false;
    var i := 0;
    while i < |tokens|
      invariant 0 <= i <= |tokens|
      invariant sp.Valid()
      invariant goal == Precede(items, TokenMode(cfg, sp.State(), tokens[i..], invoke))
    {
      ghost var s := sp.State();
      var text, h := TokenStep(sp, tokens[i], invoke);
      TokenAdvance(cfg, s, tokens, i, invoke, Fed(sp.State(), text, h), items, goal);
      if h {
        if text != [] {
          items := items + [text];
        }
        halted := true;
        return;
      }
      items := items + [text];
      i := i + 1;
    }
    TokenEnd(cfg, sp.State(), tokens, invoke, items, goal);
  }

  /** The character- and chunk-mode loop of `sync_wrap`, with the final flush. */
  method StreamLoop(sp: StreamProcessor, tokens: seq<string>, mode: string, invoke: Invoke) returns (y: Yielded)
    requires sp.Valid()
    modifies sp, sp.history.Repr()
    ensures y == StreamMode(sp.Cfg(), old(sp.State()), tokens, mode, invoke)
  {
    ghost var cfg := sp.Cfg();
    StreamStart(cfg, sp.State(), tokens, mode, invoke);
    ghost var goal := StreamMode(cfg, sp.State(), tokens, mode, invoke);
    var items := [];
    var i := 0;
    while i < |tokens|
      invariant 0 <= i <= |tokens|
      invariant sp.Valid()
      invariant goal == Extend(items, StreamMode(cfg, sp.State(), tokens[i..], mode, invoke))
    {
      ghost var s := sp.State();
      var out, h := FeedToken(sp, tokens[i], invoke);
      StreamAdvance(cfg, s, tokens, i, mode, invoke, Fed(sp.State(), out, h), items, goal);
      if h {
        return Yielded(items, None);
      }
      match Repack(out, mode)
      case Err(e) =>
        return Yielded(items, Some(e));
      case Ok(chunk) =>
        items := items + chunk;
      i := i + 1;
    }
    ghost var s := sp.State();
    var rem := FlushValid(sp);
    StreamEnd(cfg, s, tokens, mode, invoke, sp.State(), rem, items, goal);
    if rem != [] {
      match Repack(rem, mode)
      case Err(e) =>
        return Yielded(items, Some(e));
      case Ok(chunk) =>
        items := items + chunk;
    }
    y := Yielded(items, None);
  }

  /** Token mode of the wrapper body: the items collected, and no error. */
  method TokenDrive(sp: StreamProcessor, tokens: seq<string>, invoke: Invoke) returns (y: Yielded)
    requires sp.Valid()
    modifies sp, sp.history.Repr()
    ensures y == Yielded(TokenMode(sp.Cfg(), old(sp.State()), tokens, invoke).items, None)
  {
    var items, _ := TokenLoop(sp, tokens, invoke);
    y := Yielded(items, None);
  }

  /** The body of `sync_wrap` once the processor `sp` is built: the loop of
      the yield mode. */
  method Drive(sp: StreamProcessor, tokens: seq<string>, mode: string, invoke: Invoke)
    returns (y: Yielded)
    requires sp.Valid() && sp.State() == Initial
    modifies sp, sp.history.Repr()
    ensures y == WrapSpec(sp.Cfg(), tokens, mode, invoke)
  {
    if mode == "token" {
      y := TokenDrive(sp, tokens, invoke);
    } else {
      y := StreamLoop(sp, tokens, mode, invoke);
    }
  }

  /** `Drive`, which changes only the processor and its history and so leaves
      `registry` as it is. */
  method DriveBeside(registry: KeywordRegistry, sp: StreamProcessor, tokens: seq<string>, mode: string, invoke: Invoke)
    returns (y: Yielded)
    requires sp.Valid() && sp.State() == Initial && registry !in sp.history.Repr()
    modifies sp, sp.history.Repr()
    ensures unchanged(registry)
    ensures y == WrapSpec(sp.Cfg(), tokens, mode, invoke)
  {
    y := Drive(sp, tokens, mode, invoke);
  }

  /** `sync_wrap(*args)` over the tokens the wrapped generator produces: builds a
      processor on `registry` (compiling it if needed) and runs the loop of the
      yield mode. */
  method SyncWrap(registry: KeywordRegistry, mode: string, recordHistory: bool, tokens: seq<string>, invoke: Invoke)
    returns (y: Yielded)
    requires registry.Valid()
    modifies registry
    ensures registry.Valid() && registry.compiled && registry.keywords == old(registry.keywords)
    ensures y == WrapSpec(Config(registry.root.value, registry.maxLen, recordHistory), tokens, mode, invoke)
  {
    var sp := new StreamProcessor(registry, recordHistory);
    y := DriveBeside(registry, sp, tokens, mode, invoke);
  }
}
