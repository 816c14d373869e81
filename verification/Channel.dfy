/** The Fiat-Shamir transcript (channel.rs).

    The hash is an uninterpreted function from byte streams to 32 bytes. A draw hashes every absorbed string, framed by its
    length, and the draw counter, and reduces the digest to a field element; `HashedDetermines` shows that the hashed
    stream determines the list of strings and the counter. */
module Transcripts {
  import opened Field
  import opened FieldBytes

  datatype Transcript = Transcript(history: seq<Bytes>, counter: nat)

  type Digest = b: Bytes | |b| == 32 witness seq(32, i => 0)

  /** Blake2s. */
  type Oracle = Bytes -> Digest

  function Ascii(s: string): Bytes
  {
    seq(|s|, i requires 0 <= i < |s| => (s[i] as int) % 256)
  }

  function FromSeed(seed: Bytes, domain: Bytes): Transcript { Transcript([seed, domain], 0) }

  function MixBytes(t: Transcript, b: Bytes): Transcript { t.(history := t.history + [b]) }

  function MixU64(t: Transcript, n: nat): Transcript { MixBytes(t, ToBigEndian(n, 8)) }

  function MixFp(t: Transcript, v: Fp): Transcript
  {
    Bounds(v);
    MixBytes(t, ToBigEndian(v, 32))
  }

  // ----- the hashed byte stream -----

  /** One absorbed string: its length in eight bytes, then the string. */
  function Frame(b: Bytes): Bytes { ToBigEndian(|b|, 8) + b }

  function Stream(history: seq<Bytes>): Bytes
  {
    if history == [] then [] else Frame(history[0]) + Stream(history[1..])
  }

  /** What a draw hashes. */
  function Hashed(t: Transcript): Bytes { Stream(t.history) + ToBigEndian(t.counter, 8) }

  /** The digest as a field element. */
  function Draw(o: Oracle, t: Transcript): Fp { R(FromBigEndian(o(Hashed(t)))) }

  function Drawn(t: Transcript): Transcript { t.(counter := t.counter + 1) }

  function DrawPoint(o: Oracle, t: Transcript, len: nat): (p: Vec)
    ensures |p| == len
    decreases len
  {
    if len == 0 then [] else [Draw(o, t)] + DrawPoint(o, Drawn(t), len - 1)
  }

  function DrawnPoint(t: Transcript, len: nat): Transcript { t.(counter := t.counter + len) }

  // ----- draws are domain separated -----

  /** Lengths and counter are u64 values. */
  ghost predicate FitsU64(t: Transcript)
  {
    t.counter < Pow256(8) && forall i :: 0 <= i < |t.history| ==> |t.history[i]| < Pow256(8)
  }

  lemma SameNumber(m: nat, n: nat, len: nat)
    requires m < Pow256(len) && n < Pow256(len) && ToBigEndian(m, len) == ToBigEndian(n, len)
    ensures m == n
  {
    EncodingRoundTrip(m, len);
    EncodingRoundTrip(n, len);
  }

  lemma RestFits(t: Transcript)
    requires FitsU64(t) && t.history != []
    ensures |t.history[0]| < Pow256(8) && FitsU64(t.(history := t.history[1..]))
  {
  }

  lemma FirstFrame(t: Transcript)
    requires t.history != []
    ensures Hashed(t) == ToBigEndian(|t.history[0]|, 8) + (t.history[0] + Hashed(t.(history := t.history[1..])))
  {
    hide ToBigEndian;
  }

  /** Different transcripts never hash the same stream. */
  lemma {:induction false} HashedDetermines(t: Transcript, t': Transcript)
    requires FitsU64(t) && FitsU64(t') && Hashed(t) == Hashed(t')
    ensures t == t'
    decreases |t.history|
  {
    hide ToBigEndian, Pow256;
    if t.history != [] && t'.history != [] {
      var b, b' := t.history[0], t'.history[0];
      var rest, rest' := t.(history := t.history[1..]), t'.(history := t'.history[1..]);
      FirstFrame(t);
      FirstFrame(t');
      var s, s' := b + Hashed(rest), b' + Hashed(rest');
      assert ToBigEndian(|b|, 8) == (ToBigEndian(|b|, 8) + s)[..8] == (ToBigEndian(|b'|, 8) + s')[..8] == ToBigEndian(|b'|, 8);
      assert s == (ToBigEndian(|b|, 8) + s)[8..] == (ToBigEndian(|b'|, 8) + s')[8..] == s';
      SameNumber(|b|, |b'|, 8);
      assert b == s[..|b|] == s'[..|b|] == b';
      assert Hashed(rest) == s[|b|..] == s'[|b|..] == Hashed(rest');
      RestFits(t);
      RestFits(t');
      HashedDetermines(rest, rest');
      assert t.history == [b] + rest.history && t'.history == [b'] + rest'.history;
    } else if t.history != [] {
      FirstFrame(t);
    } else if t'.history != [] {
      FirstFrame(t');
    } else {
      assert Hashed(t) == ToBigEndian(t.counter, 8) && Hashed(t') == ToBigEndian(t'.counter, 8);
      SameNumber(t.counter, t'.counter, 8);
    }
  }

  class CoprocessorChannel {
    const oracle: Oracle
    var history: seq<Bytes>
    var counter: nat

    function State(): Transcript
      reads this
    {
      Transcript(history, counter)
    }

    constructor (oracle: Oracle, seed: Bytes, domain: Bytes)
      ensures State() == FromSeed(seed, domain) && this.oracle == oracle
    {
      this.oracle := oracle;
      history := [seed, domain];
      counter := 0;
    }

    method Mix(bytes: Bytes)
      modifies this
      ensures State() == MixBytes(old(State()), bytes)
    {
      history := history + [bytes];
    }

    method MixElement(value: Fp)
      modifies this
      ensures State() == MixFp(old(State()), value)
    {
      Bounds(value);
      Mix(ToBigEndian(value, 32));
    }

    method DrawFp() returns (c: Fp)
      modifies this
      ensures c == Draw(oracle, old(State())) && State() == Drawn(old(State()))
    {
      c := R(FromBigEndian(oracle(Hashed(State()))));
      counter := counter + 1;
    }

    method DrawMany(len: nat) returns (p: Vec)
      modifies this
      ensures p == DrawPoint(oracle, old(State()), len) && State() == DrawnPoint(old(State()), len)
    {
      p := [];
      for i := 0 to len
        invariant State() == DrawnPoint(old(State()), i)
        invariant p + DrawPoint(oracle, State(), len - i) == DrawPoint(oracle, old(State()), len)
      {
        var c := DrawFp();
        p := p + [c];
      }
    }
  }
}
