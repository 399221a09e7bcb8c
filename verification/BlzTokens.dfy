/** Token lists as the meaning of compressed streams: encoding a list and decoding the stream
    gives the expansion of the list. */
module BlzTokens {
  import opened Basics
  import opened Bytes
  import opened Blz

  datatype Token = Literal(b: Byte) | Match(distance: nat, length: nat)

  /** What the encoding can express, and what has been decoded when the token is reached. */
  predicate TokenOk(t: Token, out: seq<Byte>) {
    t.Match? ==> 3 <= t.distance <= 4098 && 3 <= t.length <= 18 && t.length <= t.distance <= |out|
  }

  function Produce(t: Token, out: seq<Byte>): seq<Byte>
    requires TokenOk(t, out)
  {
    match t
    case Literal(b) => [b] + out
    case Match(d, n) => out[d - n..d] + out
  }

  predicate TokensOk(ts: seq<Token>, out: seq<Byte>) {
    ts != [] ==> TokenOk(ts[0], out) && TokensOk(ts[1..], Produce(ts[0], out))
  }

  /** The output of a token list, first token last in memory. */
  function Expand(ts: seq<Token>, out: seq<Byte>): (r: seq<Byte>)
    requires TokensOk(ts, out)
    ensures |r| >= |out| + |ts|
  {
    if ts == [] then out else Expand(ts[1..], Produce(ts[0], out))
  }

  function MatchWord(d: nat, n: nat): nat
    requires 3 <= d <= 4098 && 3 <= n <= 18
  {
    (d - 3) + 4096 * (n - 3)
  }

  predicate Encodable(t: Token) {
    t.Match? ==> 3 <= t.distance <= 4098 && 3 <= t.length <= 18
  }

  function TokenBytes(t: Token): seq<Byte>
    requires Encodable(t)
  {
    match t
    case Literal(b) => [b]
    case Match(d, n) => [MatchWord(d, n) % 256, MatchWord(d, n) / 256]
  }

  /** The bytes of a group of tokens, the first token at the end. */
  function Payload(ts: seq<Token>): seq<Byte>
    requires forall t :: t in ts ==> Encodable(t)
  {
    if ts == [] then [] else Payload(ts[1..]) + TokenBytes(ts[0])
  }

  /** The control byte of a group: one bit per token, the first token in the highest bit. */
  function Control(ts: seq<Token>): Byte {
    if ts == [] then 0
    else
      var rest: int := Control(ts[1..]);
      (if ts[0].Match? then 128 else 0) + rest / 2
  }

  function GroupLength(ts: seq<Token>): (n: nat)
    ensures n <= |ts| && (ts != [] ==> n > 0)
  {
    if |ts| < 8 then |ts| else 8
  }

  /** The compressed stream, read from its end: control byte, its group, and so on. */
  function Stream(ts: seq<Token>): seq<Byte>
    requires forall t :: t in ts ==> Encodable(t)
    decreases |ts|
  {
    if ts == [] then []
    else
      var g := GroupLength(ts);
      Stream(ts[g..]) + Payload(ts[..g]) + [Control(ts[..g])]
  }

  lemma {:induction false} MatchWordRoundTrip(d: nat, n: nat)
    requires 3 <= d <= 4098 && 3 <= n <= 18
    ensures var w := MatchWord(d, n); MatchDistance(w % 256, w / 256) == d && MatchLength(w % 256, w / 256) == n
  {
    var w := MatchWord(d, n);
    assert w % 256 + 256 * (w / 256) == w;
  }

  /** `c` has its lowest `m` bits clear. */
  predicate LowBitsClear(c: nat, m: nat) {
    m > 0 ==> c % 2 == 0 && LowBitsClear(c / 2, m - 1)
  }

  lemma {:induction false} FewerClear(c: nat, m: nat, fewer: nat)
    requires fewer <= m && LowBitsClear(c, m)
    ensures LowBitsClear(c, fewer)
  {
    if fewer > 0 {
      FewerClear(c / 2, m - 1, fewer - 1);
    }
  }

  lemma {:induction false} SumClear(c: nat, d: nat, m: nat)
    requires LowBitsClear(c, m) && LowBitsClear(d, m)
    ensures LowBitsClear(c + d, m)
  {
    if m > 0 {
      SumClear(c / 2, d / 2, m - 1);
      assert (c + d) / 2 == c / 2 + d / 2;
    }
  }

  lemma {:induction false} HalveClear(c: Byte, flag: nat, m: nat)
    requires m <= 7 && LowBitsClear(c, m + 1) && (flag == 0 || flag == 128)
    ensures LowBitsClear(flag + c / 2, m)
  {
    assert LowBitsClear(0, 7) && LowBitsClear(128, 7);
    FewerClear(flag, 7, m);
    SumClear(flag, c / 2, m);
  }

  lemma {:induction false} ControlLowBits(ts: seq<Token>, m: nat)
    requires |ts| + m <= 8
    ensures LowBitsClear(Control(ts), m)
  {
    if ts == [] {
      assert LowBitsClear(0, 8);
      FewerClear(0, 8, m);
    } else {
      ControlLowBits(ts[1..], m + 1);
      HalveClear(Control(ts[1..]), if ts[0].Match? then 128 else 0, m);
    }
  }

  /** Shifting the control byte drops the first token. */
  lemma {:induction false} ShiftControl(ts: seq<Token>)
    requires 0 < |ts| <= 8
    ensures Control(ts) >= 128 <==> ts[0].Match?
    ensures Shift(Control(ts)) == Control(ts[1..])
  {
    ControlLowBits(ts[1..], 1);
  }

  /** One token of a stream: the reference decoder produces what the token produces. */
  lemma {:induction false} StepToken(src: seq<Byte>, s: State, t: Token, rest: seq<Byte>)
    requires TokenOk(t, s.out) && s.cmp <= |src| && src[..s.cmp] == rest + TokenBytes(t)
    requires s.left > 0 && s.left + |s.out| >= |Produce(t, s.out)|
    ensures Step(src, s, t.Match?) == Some(State(|rest|, s.left + |s.out| - |Produce(t, s.out)|, Produce(t, s.out)))
    ensures src[..|rest|] == rest
  {
    assert src[..|rest|] == src[..s.cmp][..|rest|];
    match t {
      case Literal(b) => StepLiteral(src, s, b, rest);
      case Match(d, n) => StepMatch(src, s, d, n, rest);
    }
  }

  lemma {:induction false} StepLiteral(src: seq<Byte>, s: State, b: Byte, rest: seq<Byte>)
    requires s.cmp <= |src| && src[..s.cmp] == rest + [b] && s.left > 0
    ensures Step(src, s, false) == Some(State(|rest|, s.left - 1, [b] + s.out))
  {
    assert src[s.cmp - 1] == src[..s.cmp][s.cmp - 1];
  }

  lemma {:induction false} StepMatch(src: seq<Byte>, s: State, d: nat, n: nat, rest: seq<Byte>)
    requires TokenOk(Match(d, n), s.out) && s.cmp <= |src| && src[..s.cmp] == rest + TokenBytes(Match(d, n))
    requires n <= s.left
    ensures Step(src, s, true) == Some(State(|rest|, s.left - n, s.out[d - n..d] + s.out))
  {
    hide MatchDistance, MatchLength, MatchWord;
    assert src[s.cmp - 2] == src[..s.cmp][s.cmp - 2] && src[s.cmp - 1] == src[..s.cmp][s.cmp - 1];
    MatchWordRoundTrip(d, n);
  }

  /** Inside a group: `us` is left of it, `rest` comes after it, and the decoder has read up to there. */
  predicate Inside(src: seq<Byte>, s: State, us: seq<Token>, rest: seq<Token>, control: Byte, i: nat) {
    && TokensOk(us + rest, s.out)
    && (forall t :: t in us ==> Encodable(t)) && (forall t :: t in rest ==> Encodable(t))
    && s.cmp <= |src| && src[..s.cmp] == Stream(rest) + Payload(us)
    && i <= 8 && (i + |us| == 8 || (i + |us| < 8 && rest == [])) && (|us| > 0 ==> control == Control(us))
    && s.left == |Expand(us + rest, s.out)| - |s.out|
  }

  lemma {:induction false} NextGroup(src: seq<Byte>, s: State, rest: seq<Token>, control: Byte, i: nat)
    requires Inside(src, s, [], rest, control, i) && rest != []
    ensures i == 8 && 0 < s.cmp <= |src| && s.left > 0
    ensures Inside(src, s.(cmp := s.cmp - 1), rest[..GroupLength(rest)], rest[GroupLength(rest)..], src[s.cmp - 1], 0)
  {
    hide *;
    var g := GroupLength(rest);
    AtGroupEnd(src, s, rest, control, i);
    PartsEncodable(rest, g);
    StreamOfGroup(rest);
    LastByte(src, s.cmp, Stream(rest[g..]) + Payload(rest[..g]), Control(rest[..g]));
    ExpandGrows(rest, s.out);
    BeginGroup(src, s.(cmp := s.cmp - 1), rest, src[s.cmp - 1]);
  }

  /** Between two groups the stream is that of the tokens to come. */
  lemma {:induction false} AtGroupEnd(src: seq<Byte>, s: State, rest: seq<Token>, control: Byte, i: nat)
    requires Inside(src, s, [], rest, control, i) && rest != []
    ensures i == 8 && TokensOk(rest, s.out) && (forall t :: t in rest ==> Encodable(t))
    ensures s.cmp <= |src| && src[..s.cmp] == Stream(rest) && s.left == |Expand(rest, s.out)| - |s.out|
    ensures 0 < GroupLength(rest) <= |rest| && Growth(rest) > 0
  {
    hide Control, Expand, TokensOk, Stream;
    assert [] + rest == rest && Stream(rest) + [] == Stream(rest);
    NoPayload();
    assert rest[0] in rest;
  }

  /** The decoder has just read a control byte. */
  lemma {:induction false} BeginGroup(src: seq<Byte>, s: State, rest: seq<Token>, control: Byte)
    requires rest != [] && TokensOk(rest, s.out) && (forall t :: t in rest ==> Encodable(t))
    requires (forall t :: t in rest[..GroupLength(rest)] ==> Encodable(t))
    requires (forall t :: t in rest[GroupLength(rest)..] ==> Encodable(t))
    requires s.cmp <= |src| && src[..s.cmp] == Stream(rest[GroupLength(rest)..]) + Payload(rest[..GroupLength(rest)])
    requires control == Control(rest[..GroupLength(rest)]) && s.left == |Expand(rest, s.out)| - |s.out|
    ensures Inside(src, s, rest[..GroupLength(rest)], rest[GroupLength(rest)..], control, 0)
  {
    hide Control, Expand, TokensOk, Stream, Payload, Encodable;
    var g := GroupLength(rest);
    assert rest[..g] + rest[g..] == rest;
  }

  lemma {:induction false} PartsEncodable(ts: seq<Token>, g: nat)
    requires g <= |ts| && forall t :: t in ts ==> Encodable(t)
    ensures (forall t :: t in ts[..g] ==> Encodable(t)) && (forall t :: t in ts[g..] ==> Encodable(t))
  {
  }

  lemma {:induction false} NoPayload()
    ensures Payload([]) == []
  {
  }

  lemma {:induction false} StreamOfGroup(ts: seq<Token>)
    requires ts != [] && forall t :: t in ts ==> Encodable(t)
    ensures Stream(ts) == Stream(ts[GroupLength(ts)..]) + Payload(ts[..GroupLength(ts)]) + [Control(ts[..GroupLength(ts)])]
  {
  }

  lemma {:induction false} LastByte(src: seq<Byte>, n: nat, init: seq<Byte>, last: Byte)
    requires n <= |src| && src[..n] == init + [last]
    ensures 0 < n && src[n - 1] == last && src[..n - 1] == init
  {
    assert src[n - 1] == src[..n][n - 1];
    assert src[..n - 1] == src[..n][..n - 1];
  }

  lemma {:induction false} ReadControl(src: seq<Byte>, s: State, control: Byte)
    requires 0 < s.cmp <= |src| && s.left > 0
    ensures DecodeBits(src, s, control, 8) == DecodeBits(src, s.(cmp := s.cmp - 1), src[s.cmp - 1], 0)
  {
  }

  lemma {:induction false} NextToken(src: seq<Byte>, s: State, us: seq<Token>, rest: seq<Token>, control: Byte, i: nat)
    requires Inside(src, s, us, rest, control, i) && us != []
    ensures i < 8 && s.left > 0 && s.cmp <= |src| && (control >= 128 <==> us[0].Match?)
    ensures Step(src, s, us[0].Match?).Some?
    ensures Inside(src, Step(src, s, us[0].Match?).value, us[1..], rest, Shift(control), i + 1)
    ensures DecodeBits(src, s, control, i) == DecodeBits(src, Step(src, s, us[0].Match?).value, Shift(control), i + 1)
    ensures Expand(us + rest, s.out) == Expand(us[1..] + rest, Step(src, s, us[0].Match?).value.out)
  {
    hide MatchDistance, MatchLength, Shift, Step;
    var t := us[0];
    assert (us + rest)[0] == t && (us + rest)[1..] == us[1..] + rest;
    assert src[..s.cmp] == (Stream(rest) + Payload(us[1..])) + TokenBytes(t);
    StepToken(src, s, t, Stream(rest) + Payload(us[1..]));
    ShiftControl(us);
  }

  lemma {:induction false} DecodeEnd(src: seq<Byte>, s: State, control: Byte, i: nat)
    requires Inside(src, s, [], [], control, i)
    ensures DecodeBits(src, s, control, i) == Some(Expand([] + [], s.out))
  {
  }

  lemma {:induction false} DecodeTokens(src: seq<Byte>, s: State, us: seq<Token>, rest: seq<Token>, control: Byte, i: nat)
    requires Inside(src, s, us, rest, control, i)
    ensures DecodeBits(src, s, control, i) == Some(Expand(us + rest, s.out))
    decreases |us| + |rest|, |us| == 0
  {
    hide *;
    if us != [] {
      NextToken(src, s, us, rest, control, i);
      DecodeTokens(src, Step(src, s, us[0].Match?).value, us[1..], rest, Shift(control), i + 1);
    } else if rest == [] {
      DecodeEnd(src, s, control, i);
    } else {
      var g := GroupLength(rest);
      assert rest[..g] + rest[g..] == rest && us + rest == rest;
      NextGroup(src, s, rest, control, i);
      ReadControl(src, s, control);
      DecodeTokens(src, s.(cmp := s.cmp - 1), rest[..g], rest[g..], src[s.cmp - 1], 0);
    }
  }

  /** Decoding an encoded token list gives back its expansion. */
  lemma {:induction false} RoundTrip(ts: seq<Token>)
    requires TokensOk(ts, []) && forall t :: t in ts ==> Encodable(t)
    ensures Decode(Stream(ts), |Expand(ts, [])|) == Some(Expand(ts, []))
  {
    var src := Stream(ts);
    assert [] + ts == ts;
    DecodeTokens(src, State(|src|, |Expand(ts, [])|, []), [], ts, 0, 8);
  }

  // ---- Encoded images that can be decoded in place ------------------------------------------

  /** How many bytes the tokens produce. */
  function Growth(ts: seq<Token>): nat {
    if ts == [] then 0 else (if ts[0].Match? then ts[0].length else 1) + Growth(ts[1..])
  }

  /** From every group of eight tokens on, the stream is not longer than what it stands for. */
  predicate GroupsFit(ts: seq<Token>)
    requires forall t :: t in ts ==> Encodable(t)
    decreases |ts|
  {
    ts != [] ==> |Stream(ts)| <= Growth(ts) && GroupsFit(ts[GroupLength(ts)..])
  }

  lemma {:induction false} ExpandGrows(ts: seq<Token>, out: seq<Byte>)
    requires TokensOk(ts, out)
    ensures |Expand(ts, out)| == |out| + Growth(ts)
  {
    if ts != [] {
      ExpandGrows(ts[1..], Produce(ts[0], out));
    }
  }

  lemma {:induction false} GrowthConcat(a: seq<Token>, b: seq<Token>)
    ensures Growth(a + b) == Growth(a) + Growth(b)
  {
    if a == [] {
      assert a + b == b;
    } else {
      assert (a + b)[1..] == a[1..] + b;
      GrowthConcat(a[1..], b);
    }
  }

  /** Within a group no token takes more bytes than it produces. */
  lemma {:induction false} PayloadFits(us: seq<Token>)
    requires forall t :: t in us ==> Encodable(t)
    ensures |us| <= |Payload(us)| <= Growth(us) && (us == [] ==> Payload(us) == [] && Growth(us) == 0)
  {
    if us != [] {
      assert us[0] in us;
      PayloadFits(us[1..]);
    }
  }

  lemma {:induction false} InsideSizes(src: seq<Byte>, s: State, us: seq<Token>, rest: seq<Token>, control: Byte, i: nat)
    requires Inside(src, s, us, rest, control, i)
    ensures s.cmp == |Stream(rest)| + |Payload(us)| && s.left == Growth(us) + Growth(rest)
    ensures |us| <= |Payload(us)| <= Growth(us) && (us == [] ==> Payload(us) == [] && Growth(us) == 0)
  {
    hide Stream, Payload, Control, Growth, Expand;
    assert |src[..s.cmp]| == s.cmp;
    ExpandGrows(us + rest, s.out);
    GrowthConcat(us, rest);
    PayloadFits(us);
  }

  lemma {:induction false} SafeToken(src: seq<Byte>, s: State, control: Byte, i: nat)
    requires s.cmp <= |src| && s.left > 0 && i < 8 && Step(src, s, control >= 128).Some?
    ensures SafeBits(src, s, control, i) <==>
            0 < s.cmp <= s.left && SafeBits(src, Step(src, s, control >= 128).value, Shift(control), i + 1)
  {
  }

  lemma {:induction false} SafeControl(src: seq<Byte>, s: State, control: Byte)
    requires 0 < s.cmp <= |src| && s.left > 0
    ensures SafeBits(src, s, control, 8) <==> s.cmp <= s.left && SafeBits(src, s.(cmp := s.cmp - 1), src[s.cmp - 1], 0)
  {
  }

  lemma {:induction false} RestFits(ts: seq<Token>)
    requires forall t :: t in ts ==> Encodable(t)
    ensures GroupsFit(ts) ==> |Stream(ts)| <= Growth(ts)
    ensures ts != [] ==> (GroupsFit(ts) <==> |Stream(ts)| <= Growth(ts) && GroupsFit(ts[GroupLength(ts)..]))
  {
  }

  /** Decoding in place is safe from a point of the stream on exactly if the groups to come fit: what a group's own tokens
      do never matters. */
  lemma {:induction false} SafeTokens(src: seq<Byte>, s: State, us: seq<Token>, rest: seq<Token>, control: Byte, i: nat)
    requires Inside(src, s, us, rest, control, i)
    ensures SafeBits(src, s, control, i) <==> GroupsFit(rest)
    decreases |us| + |rest|, |us| == 0
  {
    hide SafeBits, GroupsFit, Stream, Payload, Growth, Step, Shift, Control, Expand, TokensOk;
    InsideSizes(src, s, us, rest, control, i);
    RestFits(rest);
    if us != [] {
      NextToken(src, s, us, rest, control, i);
      SafeTokens(src, Step(src, s, us[0].Match?).value, us[1..], rest, Shift(control), i + 1);
      SafeToken(src, s, control, i);
    } else if rest == [] {
      SafeAtEnd(src, s, control, i);
    } else {
      var g := GroupLength(rest);
      NextGroup(src, s, rest, control, i);
      SafeTokens(src, s.(cmp := s.cmp - 1), rest[..g], rest[g..], src[s.cmp - 1], 0);
      SafeControl(src, s, control);
    }
  }

  lemma {:induction false} SafeAtEnd(src: seq<Byte>, s: State, control: Byte, i: nat)
    requires Inside(src, s, [], [], control, i)
    ensures SafeBits(src, s, control, i) && GroupsFit([])
  {
  }

  /** For every token list: its stream can be decoded in place if and only if its groups fit. */
  lemma {:induction false} SafeIffGroupsFit(ts: seq<Token>)
    requires TokensOk(ts, []) && forall t :: t in ts ==> Encodable(t)
    ensures Safe(Stream(ts), |Expand(ts, [])|) <==> GroupsFit(ts)
  {
    var src := Stream(ts);
    assert [] + ts == ts;
    SafeTokens(src, State(|src|, |Expand(ts, [])|, []), [], ts, 0, 8);
  }

  /** The memory before `end` holds the stream of `ts` and a footer that announces its expansion. */
  predicate Image(mem: seq<Byte>, end: nat, ts: seq<Token>)
    requires TokensOk(ts, []) && forall t :: t in ts ==> Encodable(t)
  {
    12 <= end <= |mem| &&
    var (total, footer, additional) := Footer(mem, end);
    && footer <= total <= end && end + additional <= |mem| && total + additional < 0x1_0000_0000
    && mem[end - total..end - footer] == Stream(ts) && total + additional == |Expand(ts, [])|
  }

  /** Encoding undone in place: on an image whose groups fit, `BlzUncompress` leaves the expansion of the tokens; an image
      whose groups do not fit is not well formed. */
  lemma {:induction false} UncompressedImage(mem: seq<Byte>, end: nat, ts: seq<Token>)
    requires TokensOk(ts, []) && forall t :: t in ts ==> Encodable(t)
    requires Image(mem, end, ts)
    ensures WellFormed(mem, end) <==> GroupsFit(ts)
    ensures GroupsFit(ts) ==>
              var (total, footer, additional) := Footer(mem, end);
              Uncompressed(mem, end) == mem[..end - total] + Expand(ts, []) + mem[end + additional..]
  {
    hide Footer, Stream, Expand, Safe, GroupsFit, Decode;
    SafeIffGroupsFit(ts);
    RoundTrip(ts);
  }

  // ---- Matches that are longer than their distance ----------------------------------------

  predicate AgreeFrom(a: seq<Byte>, b: seq<Byte>, from: nat) {
    |a| == |b| && forall k :: from <= k < |a| ==> a[k] == b[k]
  }

  lemma {:induction false} CopiesAgree(a: seq<Byte>, b: seq<Byte>, to: nat, d: nat, n: nat)
    requires to + d + n <= |a| && n <= d && AgreeFrom(a, b, to + n)
    ensures AgreeFrom(Copied(a, to, d, n), Copied(b, to, d, n), to)
  {
    hide Copied;
    forall k | to <= k < |a|
      ensures Copied(a, to, d, n)[k] == Copied(b, to, d, n)[k]
    {
      CopiedAt(a, to, d, n, k);
      CopiedAt(b, to, d, n, k);
    }
  }

  /** The result of the copy loop depends on decoded bytes alone, those from `to + n` on, exactly when the
      match is not longer than its distance; a longer one reads stale bytes below the output. */
  lemma {:induction false} MatchReadsDecodedOnly(size: nat, to: nat, d: nat, n: nat)
    requires 0 < d && to + d + n <= size
    ensures (forall a: seq<Byte>, b: seq<Byte> :: |a| == size && AgreeFrom(a, b, to + n) ==>
               AgreeFrom(Copied(a, to, d, n), Copied(b, to, d, n), to)) <==> n <= d
  {
    if n <= d {
      forall a: seq<Byte>, b: seq<Byte> | |a| == size && AgreeFrom(a, b, to + n)
        ensures AgreeFrom(Copied(a, to, d, n), Copied(b, to, d, n), to)
      {
        CopiesAgree(a, b, to, d, n);
      }
    } else {
      var a: seq<Byte> := seq(size, _ => 0);
      var b: seq<Byte> := a[to + d := 1];
      assert AgreeFrom(a, b, to + n);
      assert Copied(a, to, d, n)[to] == 0 && Copied(b, to, d, n)[to] == 1;
      assert !AgreeFrom(Copied(a, to, d, n), Copied(b, to, d, n), to);
    }
  }
}
