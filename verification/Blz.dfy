/** The backward LZ decoder of `KInitialProcessReader` (`BlzUncompress`), which overwrites the
    buffer that it is still reading. */
module Blz {
  import opened Bytes
  import opened Basics

  // ---- A reference decoder with separate input and output --------------------------------

  /** `cmp` input bytes are unread, `left` output bytes are missing, `out` is what has been produced;
      input is read and output is produced from the end towards the start. */
  datatype State = State(cmp: nat, left: nat, out: seq<Byte>)

  function MatchDistance(lo: Byte, hi: Byte): nat {
    (lo + 256 * hi) % 4096 + 3
  }

  function MatchLength(lo: Byte, hi: Byte): nat {
    (lo + 256 * hi) / 4096 + 3
  }

  /** One token.  A match must lie in what has been decoded, so it may not be longer than its distance. */
  function Step(src: seq<Byte>, s: State, isMatch: bool): (r: Option<State>)
    requires s.cmp <= |src| && s.left > 0
    ensures r.Some? ==> r.value.cmp < s.cmp && r.value.left < s.left
    ensures r.Some? ==> |r.value.out| + r.value.left == |s.out| + s.left
  {
    if isMatch then
      if s.cmp < 2 then None
      else
        var d := MatchDistance(src[s.cmp - 2], src[s.cmp - 1]);
        var n := Min(MatchLength(src[s.cmp - 2], src[s.cmp - 1]), s.left);
        if n <= d <= |s.out| then Some(State(s.cmp - 2, s.left - n, s.out[d - n..d] + s.out)) else None
    else
      if s.cmp < 1 then None
      else Some(State(s.cmp - 1, s.left - 1, [src[s.cmp - 1]] + s.out))
  }

  /** `control <<= 1`. */
  function Shift(control: Byte): Byte {
    var c: int := control;
    c * 2 % 256
  }

  /** What remains to be done when `8 - i` bits of the control byte are left; after bit 7 the next
      control byte is read. */
  function DecodeBits(src: seq<Byte>, s: State, control: Byte, i: nat): Option<seq<Byte>>
    requires s.cmp <= |src| && i <= 8
    decreases s.left, s.cmp
  {
    if s.left == 0 then Some(s.out)
    else if i == 8 then
      if s.cmp == 0 then None else DecodeBits(src, s.(cmp := s.cmp - 1), src[s.cmp - 1], 0)
    else
      match Step(src, s, control >= 128)
      case None => None
      case Some(t) => DecodeBits(src, t, Shift(control), i + 1)
  }

  function Decode(src: seq<Byte>, left: nat): Option<seq<Byte>> {
    DecodeBits(src, State(|src|, left, []), 0, 8)
  }

  /** The reference decoder succeeds, and decoding in place is safe: whenever input is read, the unread
      input ends below the output. */
  predicate SafeBits(src: seq<Byte>, s: State, control: Byte, i: nat)
    requires s.cmp <= |src| && i <= 8
    decreases s.left, s.cmp
  {
    s.left > 0 ==>
      && 0 < s.cmp <= s.left
      && if i == 8 then SafeBits(src, s.(cmp := s.cmp - 1), src[s.cmp - 1], 0)
         else
           match Step(src, s, control >= 128)
           case None => false
           case Some(t) => SafeBits(src, t, Shift(control), i + 1)
  }

  predicate Safe(src: seq<Byte>, left: nat) {
    SafeBits(src, State(|src|, left, []), 0, 8)
  }

  lemma {:induction false} SafeDecodes(src: seq<Byte>, s: State, control: Byte, i: nat)
    requires s.cmp <= |src| && i <= 8 && SafeBits(src, s, control, i)
    ensures DecodeBits(src, s, control, i).Some?
    ensures |DecodeBits(src, s, control, i).value| == |s.out| + s.left
    decreases s.left, s.cmp
  {
    if s.left > 0 {
      if i == 8 {
        SafeDecodes(src, s.(cmp := s.cmp - 1), src[s.cmp - 1], 0);
      } else {
        SafeDecodes(src, Step(src, s, control >= 128).value, Shift(control), i + 1);
      }
    }
  }

  // ---- Decoding in place -------------------------------------------------------------

  function Word(a: Byte, b: Byte, c: Byte, d: Byte): nat {
    a + 256 * b + 0x10000 * c + 0x1000000 * d
  }

  /** The three sizes in the footer before `end`: the compressed size, the footer size and the growth. */
  function Footer(mem: seq<Byte>, end: nat): (nat, nat, nat)
    requires 12 <= end <= |mem|
  {
    (Word(mem[end - 12], mem[end - 11], mem[end - 10], mem[end - 9]),
     Word(mem[end - 8], mem[end - 7], mem[end - 6], mem[end - 5]),
     Word(mem[end - 4], mem[end - 3], mem[end - 2], mem[end - 1]))
  }

  /** The footer describes a stream that fits the memory and that can be decoded in place. */
  predicate WellFormed(mem: seq<Byte>, end: nat) {
    12 <= end <= |mem| &&
    var (total, footer, additional) := Footer(mem, end);
    && footer <= total <= end
    && end + additional <= |mem|
    && total + additional < 0x1_0000_0000
    && Safe(mem[end - total..end - footer], total + additional)
  }

  /** What `BlzUncompress` makes of a memory with a well-formed stream before `end`. */
  ghost function Uncompressed(mem: seq<Byte>, end: nat): seq<Byte>
    requires WellFormed(mem, end)
  {
    var (total, footer, additional) := Footer(mem, end);
    var src := mem[end - total..end - footer];
    SafeDecodes(src, State(|src|, total + additional, []), 0, 8);
    mem[..end - total] + Decode(src, total + additional).value + mem[end + additional..]
  }

  /** The decoder stands at `s`: unread input and produced output are where they should be. */
  ghost predicate InPlace(mem: seq<Byte>, old': seq<Byte>, base: nat, size: nat, src: seq<Byte>, s: State) {
    && |mem| == |old'| && base + size <= |mem| && s.cmp <= |src|
    && s.left <= size && |s.out| == size - s.left
    && mem[..base] == old'[..base]
    && mem[base + s.left..base + size] == s.out
    && mem[base + size..] == old'[base + size..]
    && forall k :: 0 <= k < s.cmp && k < s.left ==> mem[base + k] == src[k]
  }

  lemma {:induction false} LiteralInPlace(m: seq<Byte>, init: seq<Byte>, base: nat, size: nat, src: seq<Byte>, s: State)
    requires InPlace(m, init, base, size, src, s) && 0 < s.cmp <= s.left
    ensures m[base + s.cmp - 1] == src[s.cmp - 1]
    ensures InPlace(m[base + s.left - 1 := m[base + s.cmp - 1]], init, base, size, src, Step(src, s, false).value)
  {
    var l := s.left - 1;
    var n := m[base + l := m[base + s.cmp - 1]];
    assert n[base + l..base + size] == [m[base + s.cmp - 1]] + m[base + s.left..base + size];
    assert n[base + size..] == m[base + size..] && n[..base] == m[..base];
  }

  lemma {:induction false} MatchInPlace(m: seq<Byte>, init: seq<Byte>, base: nat, size: nat, src: seq<Byte>,
                                        s: State, d: nat, n: nat)
    requires InPlace(m, init, base, size, src, s) && 1 < s.cmp <= s.left && Step(src, s, true).Some?
    requires d == MatchDistance(src[s.cmp - 2], src[s.cmp - 1])
    requires n == Min(MatchLength(src[s.cmp - 2], src[s.cmp - 1]), s.left)
    ensures m[base + s.cmp - 2] == src[s.cmp - 2] && m[base + s.cmp - 1] == src[s.cmp - 1]
    ensures n <= d && base + s.left - n + d + n <= |m|
    ensures InPlace(Copied(m, base + s.left - n, d, n), init, base, size, src, Step(src, s, true).value)
  {
    hide MatchDistance, MatchLength;
    CopyInPlace(m, init, base, size, src, s, d, n);
  }

  lemma {:induction false} CopyInPlace(m: seq<Byte>, init: seq<Byte>, base: nat, size: nat, src: seq<Byte>, s: State,
                                       d: nat, n: nat)
    requires InPlace(m, init, base, size, src, s) && 2 <= s.cmp && n <= s.left && n <= d <= |s.out|
    ensures base + s.left + d <= |m|
    ensures InPlace(Copied(m, base + s.left - n, d, n), init, base, size, src,
                    State(s.cmp - 2, s.left - n, s.out[d - n..d] + s.out))
  {
    hide Copied;
    var to, done := base + s.left - n, base + s.left;
    CopiedParts(m, base, size, to, d, n);
    var c := Copied(m, to, d, n);
    SliceOfSlice(m, done, base + size, d - n, d);
    assert c[to..base + size] == s.out[d - n..d] + s.out;
    forall k | 0 <= k < s.cmp - 2 && k < s.left - n
      ensures c[base + k] == src[k]
    {
      assert m[base + k] == src[k];
    }
  }

  lemma {:induction false} CopiedAt(mem: seq<Byte>, to: nat, d: nat, n: nat, k: nat)
    requires to + d + n <= |mem| && k < |mem|
    ensures Copied(mem, to, d, n)[k] == mem[if to <= k < to + n then k + d else k]
  {
  }

  /** A copy changes `n` bytes and no others. */
  lemma {:induction false} CopiedParts(m: seq<Byte>, base: nat, size: nat, to: nat, d: nat, n: nat)
    requires base <= to && n <= d && to + n + d <= base + size <= |m|
    ensures var c := Copied(m, to, d, n);
            && |c| == |m| && c[..base] == m[..base] && c[base + size..] == m[base + size..]
            && c[to..base + size] == m[to + d..to + d + n] + m[to + n..base + size]
            && forall k :: 0 <= k < to ==> c[k] == m[k]
  {
    hide Copied;
    var c := Copied(m, to, d, n);
    forall k | 0 <= k < |m|
      ensures c[k] == m[if to <= k < to + n then k + d else k]
    {
      CopiedAt(m, to, d, n, k);
    }
    var source, kept := m[to + d..to + d + n], m[to + n..base + size];
    assert c[to..to + n] == source;
    assert c[to + n..base + size] == kept;
    assert c[to..base + size] == c[to..to + n] + c[to + n..base + size];
  }

  /** Reading a control byte. */
  lemma {:induction false} ControlStep(src: seq<Byte>, s: State)
    requires s.cmp <= |src| && s.left > 0 && SafeBits(src, s, 0, 8)
    ensures 0 < s.cmp <= s.left
    ensures SafeBits(src, s.(cmp := s.cmp - 1), src[s.cmp - 1], 0)
    ensures DecodeBits(src, s, 0, 8) == DecodeBits(src, s.(cmp := s.cmp - 1), src[s.cmp - 1], 0)
  {
  }

  /** Reading a token. */
  lemma {:induction false} TokenStep(src: seq<Byte>, s: State, control: Byte, i: nat)
    requires s.cmp <= |src| && s.left > 0 && i < 8 && SafeBits(src, s, control, i)
    ensures 0 < s.cmp <= s.left && Step(src, s, control >= 128).Some?
    ensures SafeBits(src, Step(src, s, control >= 128).value, Shift(control), i + 1)
    ensures DecodeBits(src, s, control, i) == DecodeBits(src, Step(src, s, control >= 128).value, Shift(control), i + 1)
  {
  }

  /** When a group is over, its control byte no longer matters. */
  lemma {:induction false} AnyControl(src: seq<Byte>, s: State, control: Byte, i: nat)
    requires s.cmp <= |src| && i <= 8 && (i == 8 || s.left == 0)
    ensures SafeBits(src, s, 0, 8) <==> SafeBits(src, s, control, i)
    ensures DecodeBits(src, s, 0, 8) == DecodeBits(src, s, control, i)
  {
  }

  lemma {:induction false} PlaceFits(m: seq<Byte>, init: seq<Byte>, base: nat, size: nat, src: seq<Byte>, s: State)
    requires InPlace(m, init, base, size, src, s)
    ensures base + s.left <= base + size <= |m| && s.cmp <= |src|
  {
  }

  /** The body of the inner loop. */
  method OneToken(mem: array<Byte>, base: nat, ghost size: nat, cmp0: nat, left0: nat, isMatch: bool,
                  ghost src: seq<Byte>, ghost init: seq<Byte>, ghost s: State)
    returns (cmp: nat, left: nat, ghost t: State)
    requires InPlace(mem[..], init, base, size, src, s) && s.cmp == cmp0 && s.left == left0
    requires 0 < cmp0 <= left0 && Step(src, s, isMatch).Some?
    modifies mem
    ensures t == Step(src, s, isMatch).value && t.cmp == cmp && t.left == left
    ensures InPlace(mem[..], init, base, size, src, t)
  {
    hide MatchDistance, MatchLength, InPlace, Copied;
    PlaceFits(mem[..], init, base, size, src, s);
    t := Step(src, s, isMatch).value;
    if isMatch {
      cmp := cmp0 - 2;
      MatchInPlace(mem[..], init, base, size, src, s, MatchDistance(src[cmp], src[cmp + 1]),
                   Min(MatchLength(src[cmp], src[cmp + 1]), left0));
      var ofs := MatchDistance(mem[base + cmp], mem[base + cmp + 1]);
      var n := Min(MatchLength(mem[base + cmp], mem[base + cmp + 1]), left0);
      left := left0 - n;
      CopyForward(mem, base + left, ofs, n);
    } else {
      cmp, left := cmp0 - 1, left0 - 1;
      LiteralInPlace(mem[..], init, base, size, src, s);
      mem[base + left] := mem[base + cmp];
    }
  }

  /** The two loops. */
  method DecodeInPlace(mem: array<Byte>, base: nat, cmp0: nat, left0: nat, ghost src: seq<Byte>)
    requires base + cmp0 <= mem.Length && base + left0 <= mem.Length && src == mem[base..base + cmp0]
    requires Safe(src, left0) && Decode(src, left0).Some?
    modifies mem
    ensures |Decode(src, left0).value| == left0
    ensures mem[..] == old(mem[..base]) + Decode(src, left0).value + old(mem[base + left0..])
  {
    hide SafeBits, DecodeBits, Step;
    var cmp: nat, left: nat := cmp0, left0;
    ghost var init, s := mem[..], State(cmp0, left0, []);
    while left > 0
      invariant s.cmp == cmp && s.left == left
      invariant InPlace(mem[..], init, base, left0, src, s)
      invariant SafeBits(src, s, 0, 8) && DecodeBits(src, s, 0, 8) == Decode(src, left0)
      decreases left
    {
      ControlStep(src, s);
      cmp := cmp - 1;
      var control := mem[base + cmp];
      assert mem[..][base + cmp] == src[cmp];
      s := s.(cmp := cmp);
      var i := 0;
      ghost var before := left;
      while i < 8 && left > 0
        invariant 0 <= i <= 8 && s.cmp == cmp && s.left == left && (if i == 0 then left == before else left < before)
        invariant InPlace(mem[..], init, base, left0, src, s)
        invariant SafeBits(src, s, control, i) && DecodeBits(src, s, control, i) == Decode(src, left0)
        decreases 8 - i
      {
        TokenStep(src, s, control, i);
        cmp, left, s := OneToken(mem, base, left0, cmp, left, control >= 128, src, init, s);
        i := i + 1;
        control := Shift(control);
      }
      AnyControl(src, s, control, i);
    }
    Finished(src, s);
    assert mem[..] == mem[..][..base] + mem[..][base..base + left0] + mem[..][base + left0..];
  }

  lemma {:induction false} Finished(src: seq<Byte>, s: State)
    requires s.cmp <= |src| && s.left == 0
    ensures DecodeBits(src, s, 0, 8) == Some(s.out)
  {
  }

  /** What the footer says of a well-formed stream. */
  lemma {:induction false} FooterFacts(mem: seq<Byte>, end: nat, total: nat, footer: nat, additional: nat)
    requires WellFormed(mem, end) && Footer(mem, end) == (total, footer, additional)
    ensures footer <= total <= end && end + additional <= |mem|
    ensures Safe(mem[end - total..end - footer], total + additional)
    ensures Decode(mem[end - total..end - footer], total + additional).Some?
    ensures Uncompressed(mem, end)
            == mem[..end - total] + Decode(mem[end - total..end - footer], total + additional).value + mem[end + additional..]
  {
    hide Word, SafeBits, DecodeBits;
    var src := mem[end - total..end - footer];
    SafeDecodes(src, State(|src|, total + additional, []), 0, 8);
  }

  method BlzUncompress(mem: array<Byte>, end: nat)
    requires WellFormed(mem[..], end)
    modifies mem
    ensures mem[..] == Uncompressed(old(mem[..]), end)
  {
    hide Word, Safe, Decode, Uncompressed;
    var total := Word(mem[end - 12], mem[end - 11], mem[end - 10], mem[end - 9]);
    var footer := Word(mem[end - 8], mem[end - 7], mem[end - 6], mem[end - 5]);
    var additional := Word(mem[end - 4], mem[end - 3], mem[end - 2], mem[end - 1]);
    FooterFacts(mem[..], end, total, footer, additional);
    ghost var src := mem[end - total..end - footer];
    assert src == mem[..][end - total..end - footer];
    assert mem[..end - total] == mem[..][..end - total] && mem[end + additional..] == mem[..][end + additional..];
    DecodeInPlace(mem, end - total, total - footer, total + additional, src);
  }

  lemma {:induction false} CopiedNothing(mem: seq<Byte>, to: nat, ofs: nat)
    requires to + ofs <= |mem|
    ensures Copied(mem, to, ofs, 0) == mem
  {
  }

  lemma {:induction false} CopiedOneMore(mem: seq<Byte>, to: nat, ofs: nat, n: nat)
    requires 0 < ofs && to + ofs + n < |mem|
    ensures Copied(mem, to, ofs, n)[to + n := Copied(mem, to, ofs, n)[to + ofs + n]] == Copied(mem, to, ofs, n + 1)
  {
    hide Copied;
    var c := Copied(mem, to, ofs, n);
    var more, next := Copied(mem, to, ofs, n + 1), c[to + n := c[to + ofs + n]];
    forall k | 0 <= k < |mem|
      ensures next[k] == more[k]
    {
      CopiedAt(mem, to, ofs, n, k);
      CopiedAt(mem, to, ofs, n, to + ofs + n);
      CopiedAt(mem, to, ofs, n + 1, k);
    }
  }

  /** The copy loop of a match. */
  method CopyForward(mem: array<Byte>, to: nat, ofs: nat, n: nat)
    requires 0 < ofs && to + ofs + n <= mem.Length
    modifies mem
    ensures mem[..] == Copied(old(mem[..]), to, ofs, n)
  {
    hide Copied;
    var j := 0;
    assert mem[..] == Copied(mem[..], to, ofs, 0) by {
      CopiedNothing(mem[..], to, ofs);
    }
    while j < n
      invariant 0 <= j <= n
      invariant mem[..] == Copied(old(mem[..]), to, ofs, j)
    {
      CopiedOneMore(old(mem[..]), to, ofs, j);
      assert mem[..][to + ofs + j] == mem[to + ofs + j];
      mem[to + j] := mem[to + ofs + j];
      j := j + 1;
    }
  }

  /** Since the source runs ahead of the destination, every byte is read before it is overwritten. */
  function Copied(mem: seq<Byte>, to: nat, ofs: nat, n: nat): (r: seq<Byte>)
    requires to + ofs + n <= |mem|
    ensures |r| == |mem|
  {
    mem[..to] + mem[to + ofs..to + ofs + n] + mem[to + n..]
  }
}
