/** What a challenge of the sumcheck is bound to (sumcheck.rs): every draw hashes a stream that determines the commitment
    root, the shape of the circuit, the place of the draw in the protocol and every message sent before it. Pads are draws
    from streams of their own, so a hash function can give them any values. */
module TranscriptBinding {
  import opened Modulus
  import opened Field
  import opened FieldBytes
  import opened Circuits
  import opened Transcripts
  import opened Rounds
  import opened Sumcheck

  // ----- the strings a transcript absorbs -----

  function ShapeStrings(layers: seq<Layer>): (s: seq<Bytes>)
    ensures |s| == 2 * |layers|
  {
    if layers == [] then []
    else
      var n := |layers| - 1;
      ShapeStrings(layers[..n]) + [ToBigEndian(layers[n].outLog, 8), ToBigEndian(layers[n].nextLog, 8)]
  }

  /** Tag, root, layer count, then both sizes of every layer. */
  function DomainStrings(layers: seq<Layer>, root: Bytes): seq<Bytes>
  {
    [Ascii("eu-id-ec-coproc-sumcheck-v1"), root, ToBigEndian(|layers|, 8)] + ShapeStrings(layers)
  }

  function Encodings(v: Vec): (s: seq<Bytes>)
    ensures |s| == |v|
  {
    seq(|v|, i requires 0 <= i < |v| => assert InRange(v[i]); ToBigEndian(v[i], 32))
  }

  function Extended(t: Transcript, strings: seq<Bytes>, draws: nat): Transcript
  {
    Transcript(t.history + strings, t.counter + draws)
  }

  lemma {:induction false} ShapeHistory(t: Transcript, layers: seq<Layer>)
    ensures MixCircuit(t, layers) == Extended(t, ShapeStrings(layers), 0)
  {
    hide ToBigEndian;
    if layers == [] {
      assert t.history + [] == t.history;
    } else {
      var n := |layers| - 1;
      ShapeHistory(t, layers[..n]);
      var o, x := ToBigEndian(layers[n].outLog, 8), ToBigEndian(layers[n].nextLog, 8);
      assert t.history + ShapeStrings(layers[..n]) + [o] + [x] == t.history + (ShapeStrings(layers[..n]) + [o, x]);
    }
  }

  lemma DomainHistory(t: Transcript, layers: seq<Layer>, root: Bytes)
    ensures MixDomain(t, layers, root) == Extended(t, DomainStrings(layers, root), 0)
  {
    hide ToBigEndian, ShapeStrings, MixCircuit, Ascii;
    var tag, count := Ascii("eu-id-ec-coproc-sumcheck-v1"), ToBigEndian(|layers|, 8);
    ShapeHistory(t.(history := t.history + [tag] + [root] + [count]), layers);
    assert t.history + [tag] + [root] + [count] + ShapeStrings(layers) == t.history + ([tag, root, count] + ShapeStrings(layers));
  }

  /** The sizes are u64 values. */
  ghost predicate SmallShape(layers: seq<Layer>)
  {
    && |layers| < Pow256(8)
    && forall k :: 0 <= k < |layers| ==> layers[k].outLog < Pow256(8) && layers[k].nextLog < Pow256(8)
  }

  ghost predicate SameShape(layers: seq<Layer>, layers': seq<Layer>)
  {
    && |layers| == |layers'|
    && forall k :: 0 <= k < |layers| ==> layers[k].outLog == layers'[k].outLog && layers[k].nextLog == layers'[k].nextLog
  }

  lemma {:induction false} ShapeDetermines(layers: seq<Layer>, layers': seq<Layer>)
    requires SmallShape(layers) && SmallShape(layers') && ShapeStrings(layers) == ShapeStrings(layers')
    ensures SameShape(layers, layers')
    decreases |layers|
  {
    hide ToBigEndian, Pow256;
    assert |layers| == |layers'|;
    if layers != [] {
      var n := |layers| - 1;
      var s, s' := ShapeStrings(layers), ShapeStrings(layers');
      assert s[..2 * n] == ShapeStrings(layers[..n]) && s'[..2 * n] == ShapeStrings(layers'[..n]);
      ShapeDetermines(layers[..n], layers'[..n]);
      assert s[2 * n] == s'[2 * n] && s[2 * n + 1] == s'[2 * n + 1];
      SameNumber(layers[n].outLog, layers'[n].outLog, 8);
      SameNumber(layers[n].nextLog, layers'[n].nextLog, 8);
      forall k | 0 <= k < n ensures layers[k].outLog == layers'[k].outLog && layers[k].nextLog == layers'[k].nextLog {
        assert layers[..n][k] == layers[k] && layers'[..n][k] == layers'[k];
      }
    }
  }

  /** The absorbed domain determines root and shape, whatever is absorbed after it. */
  lemma DomainDetermines(
    layers: seq<Layer>, root: Bytes, rest: seq<Bytes>, layers': seq<Layer>, root': Bytes, rest': seq<Bytes>)
    requires SmallShape(layers) && SmallShape(layers')
    requires DomainStrings(layers, root) + rest == DomainStrings(layers', root') + rest'
    ensures root == root' && SameShape(layers, layers') && rest == rest'
  {
    hide ToBigEndian, Pow256, ShapeStrings, Ascii;
    var s, s' := DomainStrings(layers, root) + rest, DomainStrings(layers', root') + rest';
    assert root == s[1] == s'[1] == root';
    assert ToBigEndian(|layers|, 8) == s[2] == s'[2] == ToBigEndian(|layers'|, 8);
    SameNumber(|layers|, |layers'|, 8);
    var n := 2 * |layers|;
    assert ShapeStrings(layers) == s[3..3 + n] == s'[3..3 + n] == ShapeStrings(layers');
    ShapeDetermines(layers, layers');
    assert rest == s[3 + n..] == s'[3 + n..] == rest';
  }

  /** From one transcript, root and shape are determined by the transcript after the domain. */
  lemma MixedDomainDetermines(t: Transcript, layers: seq<Layer>, root: Bytes, layers': seq<Layer>, root': Bytes)
    requires SmallShape(layers) && SmallShape(layers') && MixDomain(t, layers, root) == MixDomain(t, layers', root')
    ensures root == root' && SameShape(layers, layers')
  {
    hide MixDomain, DomainStrings;
    DomainHistory(t, layers, root);
    DomainHistory(t, layers', root');
    var d, d' := DomainStrings(layers, root), DomainStrings(layers', root');
    assert d == (t.history + d)[|t.history|..] == (t.history + d')[|t.history|..] == d';
    assert d + [] == d && d' + [] == d';
    DomainDetermines(layers, root, [], layers', root', []);
  }

  // ----- field elements -----

  /** Field elements fit the 32 bytes they are absorbed as. */
  ghost predicate FitsBytes() { P <= Pow256(32) }

  lemma P256FitsBytes()
    requires P == P256
    ensures FitsBytes()
  {
    hide FromBigEndian, Pow256;
    ModulusBytes();
    FromBigEndianBound(P_BE);
  }

  lemma ElementDetermines(a: Fp, b: Fp)
    requires FitsBytes() && ToBigEndian(ValueOf(a), 32) == ToBigEndian(ValueOf(b), 32)
    ensures a == b
  {
    hide ToBigEndian, Pow256;
    Bounds(a);
    Bounds(b);
    SameNumber(a, b, 32);
  }

  function ValueOf(a: Fp): nat
  {
    Bounds(a);
    a
  }

  lemma EncodingsDetermine(v: Vec, w: Vec)
    requires FitsBytes() && Encodings(v) == Encodings(w)
    ensures v == w
  {
    hide ToBigEndian, Pow256, FitsBytes;
    assert |v| == |Encodings(v)| == |Encodings(w)| == |w|;
    forall i | 0 <= i < |v| ensures v[i] == w[i] {
      assert Encodings(v)[i] == Encodings(w)[i];
      ElementDetermines(v[i], w[i]);
    }
  }

  lemma EncodingsConcat(v: Vec, w: Vec)
    ensures Encodings(v + w) == Encodings(v) + Encodings(w)
  {
    hide ToBigEndian;
  }

  lemma MessageHistory(t: Transcript, sent: Pair)
    ensures AfterMessage(t, sent) == Extended(t, Encodings([sent.0, sent.1]), 0)
  {
    hide ToBigEndian;
    assert t.history + [ToBigEndian(ValueOf(sent.0), 32)] + [ToBigEndian(ValueOf(sent.1), 32)]
        == t.history + [ToBigEndian(ValueOf(sent.0), 32), ToBigEndian(ValueOf(sent.1), 32)];
    assert Encodings([sent.0, sent.1]) == [ToBigEndian(ValueOf(sent.0), 32), ToBigEndian(ValueOf(sent.1), 32)];
  }

  /** A message is determined by the transcript after it. */
  lemma MessageDetermines(t: Transcript, sent: Pair, t': Transcript, sent': Pair)
    requires FitsBytes() && AfterMessage(t, sent) == AfterMessage(t', sent')
    ensures t == t' && sent == sent'
  {
    hide AfterMessage, Encodings, FitsBytes;
    MessageHistory(t, sent);
    MessageHistory(t', sent');
    var e, e', n := Encodings([sent.0, sent.1]), Encodings([sent'.0, sent'.1]), |t.history|;
    assert |t.history + e| == |t'.history + e'|;
    assert t.history == (t.history + e)[..n] == (t'.history + e')[..n] == t'.history;
    assert e == (t.history + e)[n..] == (t'.history + e')[n..] == e';
    EncodingsDetermine([sent.0, sent.1], [sent'.0, sent'.1]);
    assert [sent.0, sent.1][0] == [sent'.0, sent'.1][0] && [sent.0, sent.1][1] == [sent'.0, sent'.1][1];
  }

  // ----- the transcript before each draw -----

  /** After the rounds of a layer: a message and a draw each. */
  function AfterRounds(t: Transcript, rounds: seq<Pair>): Transcript
  {
    if rounds == [] then t
    else
      var k := |rounds| - 1;
      Drawn(AfterMessage(AfterRounds(t, rounds[..k]), rounds[k]))
  }

  /** Before the first draw of layer i. */
  function BeforeLayer(t: Transcript, proofs: seq<LayerProof>, i: nat): Transcript
    requires i <= |proofs|
  {
    if i == 0 then t
    else AfterMessage(AfterRounds(Drawn(BeforeLayer(t, proofs, i - 1)), proofs[i - 1].rounds), proofs[i - 1].nextClaims)
  }

  /** The draws of a run: coordinate d of the output point, alpha of layer i (j = 0), or the j-th challenge of layer i. */
  datatype Place = OutputAt(d: nat) | ChallengeAt(i: nat, j: nat)

  ghost predicate PlaceIn(layers: seq<Layer>, proofs: seq<LayerProof>, p: Place)
  {
    && layers != [] && |proofs| == |layers|
    && (forall l :: 0 <= l < |layers| ==> |proofs[l].rounds| == 2 * layers[l].nextLog)
    && match p
       case OutputAt(d) => d < layers[0].outLog
       case ChallengeAt(i, j) => i < |layers| && j <= 2 * layers[i].nextLog
  }

  /** What is hashed for that draw. */
  ghost function DrawnFrom(t: Transcript, layers: seq<Layer>, root: Bytes, proofs: seq<LayerProof>, p: Place): Transcript
    requires PlaceIn(layers, proofs, p)
  {
    match p
    case OutputAt(d) => DrawnPoint(MixDomain(t, layers, root), d)
    case ChallengeAt(i, j) =>
      var start := BeforeLayer(AfterOutputPoint(layers, root, t), proofs, i);
      if j == 0 then start
      else AfterMessage(AfterRounds(Drawn(start), proofs[i].rounds[..j - 1]), proofs[i].rounds[j - 1])
  }

  // ----- the same, as strings and a count of draws -----

  function LayerMessages(p: LayerProof): Vec { Flatten(p.rounds) + [p.nextClaims.0, p.nextClaims.1] }

  /** The field elements sent before layer i. */
  function SentBefore(proofs: seq<LayerProof>, i: nat): Vec
    requires i <= |proofs|
  {
    if i == 0 then [] else SentBefore(proofs, i - 1) + LayerMessages(proofs[i - 1])
  }

  function DrawsBefore(proofs: seq<LayerProof>, i: nat): nat
    requires i <= |proofs|
  {
    if i == 0 then 0 else DrawsBefore(proofs, i - 1) + 1 + |proofs[i - 1].rounds|
  }

  lemma ExtendedTwice(t: Transcript, a: seq<Bytes>, m: nat, b: seq<Bytes>, n: nat)
    ensures Extended(Extended(t, a, m), b, n) == Extended(t, a + b, m + n)
  {
    assert t.history + a + b == t.history + (a + b);
  }

  lemma {:induction false} RoundsHistory(t: Transcript, rounds: seq<Pair>)
    ensures AfterRounds(t, rounds) == Extended(t, Encodings(Flatten(rounds)), |rounds|)
  {
    hide Encodings, AfterMessage;
    if rounds == [] {
      NoEncodings();
      assert t.history + [] == t.history;
    } else {
      var k := |rounds| - 1;
      var sent: Vec := [rounds[k].0, rounds[k].1];
      RoundsHistory(t, rounds[..k]);
      MessageHistory(AfterRounds(t, rounds[..k]), rounds[k]);
      ExtendedTwice(t, Encodings(Flatten(rounds[..k])), k, Encodings(sent), 0);
      EncodingsConcat(Flatten(rounds[..k]), sent);
    }
  }

  lemma NoEncodings()
    ensures Encodings([]) == []
  {
  }

  lemma {:induction false} LayerHistory(t: Transcript, proofs: seq<LayerProof>, i: nat)
    requires i <= |proofs|
    ensures BeforeLayer(t, proofs, i) == Extended(t, Encodings(SentBefore(proofs, i)), DrawsBefore(proofs, i))
  {
    hide Encodings, AfterMessage, AfterRounds, Flatten;
    if i == 0 {
      NoEncodings();
      assert t.history + [] == t.history;
    } else {
      var p, s := proofs[i - 1], BeforeLayer(t, proofs, i - 1);
      var claims: Vec := [p.nextClaims.0, p.nextClaims.1];
      LayerHistory(t, proofs, i - 1);
      RoundsHistory(Drawn(s), p.rounds);
      MessageHistory(AfterRounds(Drawn(s), p.rounds), p.nextClaims);
      var before, rounds := SentBefore(proofs, i - 1), Flatten(p.rounds);
      assert Drawn(s) == Extended(t, Encodings(before), DrawsBefore(proofs, i - 1) + 1);
      ExtendedTwice(t, Encodings(before), DrawsBefore(proofs, i - 1) + 1, Encodings(rounds), |p.rounds|);
      ExtendedTwice(t, Encodings(before) + Encodings(rounds), DrawsBefore(proofs, i), Encodings(claims), 0);
      EncodingsConcat(before, rounds);
      EncodingsConcat(before + rounds, claims);
      assert before + rounds + claims == before + (rounds + claims);
    }
  }

  /** The field elements sent before a draw, and the number of draws before it. */
  ghost function SentAt(layers: seq<Layer>, proofs: seq<LayerProof>, p: Place): Vec
    requires PlaceIn(layers, proofs, p)
  {
    match p
    case OutputAt(d) => []
    case ChallengeAt(i, j) => SentBefore(proofs, i) + Flatten(proofs[i].rounds[..j])
  }

  ghost function DrawsAt(layers: seq<Layer>, proofs: seq<LayerProof>, p: Place): nat
    requires PlaceIn(layers, proofs, p)
  {
    match p
    case OutputAt(d) => d
    case ChallengeAt(i, j) => layers[0].outLog + DrawsBefore(proofs, i) + j
  }

  lemma DrawHistory(t: Transcript, layers: seq<Layer>, root: Bytes, proofs: seq<LayerProof>, p: Place)
    requires PlaceIn(layers, proofs, p)
    ensures DrawnFrom(t, layers, root, proofs, p)
         == Extended(t, DomainStrings(layers, root) + Encodings(SentAt(layers, proofs, p)), DrawsAt(layers, proofs, p))
  {
    hide Encodings, AfterMessage, AfterRounds, Flatten, DomainStrings, MixDomain, BeforeLayer, SentBefore, DrawsBefore;
    DomainHistory(t, layers, root);
    var d := DomainStrings(layers, root);
    match p
    case OutputAt(k) =>
      NoEncodings();
      assert d + [] == d;
    case ChallengeAt(i, j) =>
      var start, rounds := BeforeLayer(AfterOutputPoint(layers, root, t), proofs, i), proofs[i].rounds;
      var sent := SentBefore(proofs, i);
      LayerHistory(AfterOutputPoint(layers, root, t), proofs, i);
      ExtendedTwice(t, d, layers[0].outLog, Encodings(sent), DrawsBefore(proofs, i));
      if j == 0 {
        assert rounds[..0] == [];
        NoFlatten();
        assert sent + [] == sent;
      } else {
        ChallengeHistory(start, rounds, j);
        EncodingsConcat(sent, Flatten(rounds[..j]));
        ExtendedTwice(t, d + Encodings(sent), layers[0].outLog + DrawsBefore(proofs, i), Encodings(Flatten(rounds[..j])), j);
        assert d + Encodings(sent) + Encodings(Flatten(rounds[..j])) == d + (Encodings(sent) + Encodings(Flatten(rounds[..j])));
      }
  }

  lemma NoFlatten()
    ensures Flatten([]) == []
  {
  }

  lemma ChallengeHistory(start: Transcript, rounds: seq<Pair>, j: nat)
    requires 1 <= j <= |rounds|
    ensures AfterMessage(AfterRounds(Drawn(start), rounds[..j - 1]), rounds[j - 1])
         == Extended(start, Encodings(Flatten(rounds[..j])), j)
  {
    hide Encodings, AfterMessage, AfterRounds;
    var sent: Vec := [rounds[j - 1].0, rounds[j - 1].1];
    RoundsHistory(Drawn(start), rounds[..j - 1]);
    MessageHistory(AfterRounds(Drawn(start), rounds[..j - 1]), rounds[j - 1]);
    var before := Flatten(rounds[..j - 1]);
    assert Drawn(start) == Extended(start, [], 1) by { assert start.history + [] == start.history; }
    ExtendedTwice(start, [], 1, Encodings(before), j - 1);
    assert [] + Encodings(before) == Encodings(before);
    ExtendedTwice(start, Encodings(before), j, Encodings(sent), 0);
    EncodingsConcat(before, sent);
    assert rounds[..j][..j - 1] == rounds[..j - 1];
  }

  // ----- what they determine -----

  lemma {:induction false} FlattenLength(a: seq<Pair>)
    ensures |Flatten(a)| == 2 * |a|
  {
    if a != [] { FlattenLength(a[..|a| - 1]); }
  }

  lemma {:induction false} FlattenDetermines(a: seq<Pair>, b: seq<Pair>)
    requires |a| == |b| && Flatten(a) == Flatten(b)
    ensures a == b
  {
    if a != [] {
      var n := |a| - 1;
      FlattenLength(a[..n]);
      FlattenLength(b[..n]);
      var f, g := Flatten(a), Flatten(b);
      assert f[..2 * n] == Flatten(a[..n]) && g[..2 * n] == Flatten(b[..n]);
      FlattenDetermines(a[..n], b[..n]);
      assert f[2 * n] == g[2 * n] && f[2 * n + 1] == g[2 * n + 1];
      assert a == a[..n] + [a[n]] && b == b[..n] + [b[n]];
    }
  }

  ghost predicate SameRounds(a: seq<LayerProof>, b: seq<LayerProof>)
  {
    |a| == |b| && forall l :: 0 <= l < |a| ==> |a[l].rounds| == |b[l].rounds|
  }

  lemma {:induction false} SameCounts(a: seq<LayerProof>, b: seq<LayerProof>, i: nat)
    requires SameRounds(a, b) && i <= |a|
    ensures DrawsBefore(a, i) == DrawsBefore(b, i) && |SentBefore(a, i)| == |SentBefore(b, i)|
  {
    if i > 0 {
      SameCounts(a, b, i - 1);
      FlattenLength(a[i - 1].rounds);
      FlattenLength(b[i - 1].rounds);
    }
  }

  /** Draws come in order: the count tells layer and round. */
  lemma {:induction false} LaterDraws(a: seq<LayerProof>, i: nat, k: nat)
    requires i < k <= |a|
    ensures DrawsBefore(a, k) >= DrawsBefore(a, i) + 1 + |a[i].rounds|
    decreases k
  {
    if i < k - 1 { LaterDraws(a, i, k - 1); }
  }

  /** The messages of the layers before i are equal. */
  ghost predicate SameSent(a: seq<LayerProof>, b: seq<LayerProof>, i: nat)
    requires i <= |a| && i <= |b|
  {
    forall l :: 0 <= l < i ==> a[l].rounds == b[l].rounds && a[l].nextClaims == b[l].nextClaims
  }

  lemma {:induction false} SentDetermines(a: seq<LayerProof>, b: seq<LayerProof>, i: nat)
    requires SameRounds(a, b) && i <= |a| && SentBefore(a, i) == SentBefore(b, i)
    ensures SameSent(a, b, i)
  {
    if i > 0 {
      var k := i - 1;
      SameCounts(a, b, k);
      var s, t := SentBefore(a, i), SentBefore(b, i);
      var n := |SentBefore(a, k)|;
      assert s[..n] == SentBefore(a, k) && t[..n] == SentBefore(b, k);
      SentDetermines(a, b, k);
      assert s[n..] == LayerMessages(a[k]) && t[n..] == LayerMessages(b[k]);
      LayerDetermines(a[k], b[k]);
    }
  }

  lemma LayerDetermines(p: LayerProof, q: LayerProof)
    requires |p.rounds| == |q.rounds| && LayerMessages(p) == LayerMessages(q)
    ensures p.rounds == q.rounds && p.nextClaims == q.nextClaims
  {
    hide Flatten;
    FlattenLength(p.rounds);
    FlattenLength(q.rounds);
    var m, n := 2 * |p.rounds|, LayerMessages(p);
    assert n[..m] == Flatten(p.rounds) && LayerMessages(q)[..m] == Flatten(q.rounds);
    FlattenDetermines(p.rounds, q.rounds);
    assert n[m] == p.nextClaims.0 && n[m + 1] == p.nextClaims.1;
    assert LayerMessages(q)[m] == q.nextClaims.0 && LayerMessages(q)[m + 1] == q.nextClaims.1;
  }

  /** The messages before a draw are equal. */
  ghost predicate SameMessages(a: seq<LayerProof>, b: seq<LayerProof>, p: Place)
  {
    match p
    case OutputAt(d) => true
    case ChallengeAt(i, j) =>
      && i < |a| && i < |b| && SameSent(a, b, i)
      && j <= |a[i].rounds| && j <= |b[i].rounds| && a[i].rounds[..j] == b[i].rounds[..j]
  }

  lemma PlaceDetermined(layers: seq<Layer>, a: seq<LayerProof>, p: Place, layers': seq<Layer>, b: seq<LayerProof>, p': Place)
    requires SameShape(layers, layers') && PlaceIn(layers, a, p) && PlaceIn(layers', b, p')
    requires DrawsAt(layers, a, p) == DrawsAt(layers', b, p')
    ensures p == p'
  {
    if p.ChallengeAt? && p'.ChallengeAt? {
      SameCounts(a, b, p.i);
      SameCounts(a, b, p'.i);
      if p.i < p'.i { LaterDraws(a, p.i, p'.i); }
      if p'.i < p.i { LaterDraws(a, p'.i, p.i); }
    }
  }

  lemma MessagesDetermined(layers: seq<Layer>, a: seq<LayerProof>, layers': seq<Layer>, b: seq<LayerProof>, p: Place)
    requires SameShape(layers, layers') && PlaceIn(layers, a, p) && PlaceIn(layers', b, p)
    requires SentAt(layers, a, p) == SentAt(layers', b, p)
    ensures SameMessages(a, b, p)
  {
    hide Flatten, SentBefore, DrawsBefore;
    if p.ChallengeAt? {
      var i, j := p.i, p.j;
      assert SameRounds(a, b);
      SameCounts(a, b, i);
      var s, t, n := SentAt(layers, a, p), SentAt(layers', b, p), |SentBefore(a, i)|;
      assert s[..n] == SentBefore(a, i) && t[..n] == SentBefore(b, i);
      SentDetermines(a, b, i);
      assert s[n..] == Flatten(a[i].rounds[..j]) && t[n..] == Flatten(b[i].rounds[..j]);
      FlattenDetermines(a[i].rounds[..j], b[i].rounds[..j]);
    }
  }

  /** Every draw is bound to root, shape, place and all earlier messages: equal streams agree in all of them. */
  lemma DrawBinds(
    t: Transcript, layers: seq<Layer>, root: Bytes, proofs: seq<LayerProof>, p: Place, layers': seq<Layer>, root': Bytes,
    proofs': seq<LayerProof>, p': Place)
    requires FitsBytes() && SmallShape(layers) && SmallShape(layers')
    requires PlaceIn(layers, proofs, p) && PlaceIn(layers', proofs', p')
    requires FitsU64(DrawnFrom(t, layers, root, proofs, p)) && FitsU64(DrawnFrom(t, layers', root', proofs', p'))
    requires Hashed(DrawnFrom(t, layers, root, proofs, p)) == Hashed(DrawnFrom(t, layers', root', proofs', p'))
    ensures root == root' && SameShape(layers, layers') && p == p' && SameMessages(proofs, proofs', p)
  {
    hide Encodings, DomainStrings, DrawnFrom, SentAt, DrawsAt, SameMessages, FitsU64, Hashed, FitsBytes, SmallShape,
         PlaceIn;
    HashedDetermines(DrawnFrom(t, layers, root, proofs, p), DrawnFrom(t, layers', root', proofs', p'));
    DrawHistory(t, layers, root, proofs, p);
    DrawHistory(t, layers', root', proofs', p');
    var sent, sent' := SentAt(layers, proofs, p), SentAt(layers', proofs', p');
    var s, s', n := DomainStrings(layers, root) + Encodings(sent), DomainStrings(layers', root') + Encodings(sent'), |t.history|;
    assert s == (t.history + s)[n..] == (t.history + s')[n..] == s';
    DomainDetermines(layers, root, Encodings(sent), layers', root', Encodings(sent'));
    EncodingsDetermine(sent, sent');
    PlaceDetermined(layers, proofs, p, layers', proofs', p');
    MessagesDetermined(layers, proofs, layers', proofs', p);
  }

  // ----- these are the verifier's draws -----

  lemma {:induction false} PointDraw(o: Oracle, t: Transcript, len: nat, d: nat)
    requires d < len
    ensures DrawPoint(o, t, len)[d] == Draw(o, DrawnPoint(t, d))
    decreases len
  {
    hide Draw;
    if d > 0 { PointDraw(o, Drawn(t), len - 1, d - 1); }
  }

  lemma {:induction false} RoundsEnd(o: Oracle, rounds: seq<Pair>, pads: seq<Pair>, claim: Fp, t: Transcript)
    requires |rounds| == |pads|
    ensures RunRounds(o, rounds, pads, claim, t).tr == AfterRounds(t, rounds)
    decreases |rounds|
  {
    hide Draw, AfterMessage, Lagrange;
    if rounds != [] {
      var k := |rounds| - 1;
      RoundsEnd(o, rounds[..k], pads[..k], claim, t);
    }
  }

  lemma {:induction false} RoundDraw(o: Oracle, rounds: seq<Pair>, pads: seq<Pair>, claim: Fp, t: Transcript, j: nat)
    requires |rounds| == |pads| && j < |rounds|
    ensures RunRounds(o, rounds, pads, claim, t).point[j] == Draw(o, AfterMessage(AfterRounds(t, rounds[..j]), rounds[j]))
    decreases |rounds|
  {
    hide Draw, AfterMessage, Lagrange, AfterRounds;
    var k := |rounds| - 1;
    RoundsEnd(o, rounds[..k], pads[..k], claim, t);
    if j < k {
      RoundDraw(o, rounds[..k], pads[..k], claim, t, j);
      assert rounds[..k][..j] == rounds[..j];
    }
  }

  /** An accepted run reaches layer i with the transcript that the earlier messages determine. */
  lemma {:induction false} LayerReached(
    o: Oracle, layers: seq<Layer>, proofs: seq<LayerProof>, points: (Vec, Vec), claims: Pair, t: Transcript, i: nat)
    returns (at: (Vec, Vec), values: Pair)
    requires |layers| == |proofs| && i < |layers| && VerifyLayers(o, layers, proofs, points, claims, t).0.Ok?
    ensures VerifyLayer(o, layers[i], proofs[i], at, values, BeforeLayer(t, proofs, i)).0.Ok?
    decreases i
  {
    hide VerifyLayer, AfterMessage, AfterRounds;
    if i == 0 {
      at, values := points, claims;
    } else {
      var first := VerifyLayer(o, layers[0], proofs[0], points, claims, t);
      var (next, v) := first.0.value;
      LayerEnd(o, layers[0], proofs[0], points, claims, t);
      at, values := LayerReached(o, layers[1..], proofs[1..], next, v, first.1, i - 1);
      BeforeShift(t, proofs, i);
    }
  }

  lemma LayerEnd(o: Oracle, layer: Layer, p: LayerProof, points: (Vec, Vec), claims: Pair, t: Transcript)
    requires VerifyLayer(o, layer, p, points, claims, t).0.Ok?
    ensures |p.rounds| == |p.roundPads| == 2 * layer.nextLog
    ensures VerifyLayer(o, layer, p, points, claims, t).1 == AfterMessage(AfterRounds(Drawn(t), p.rounds), p.nextClaims)
  {
    hide Draw, AfterMessage, AfterRounds, RunRounds, Sumcheck.Expected;
    RoundsEnd(o, p.rounds, p.roundPads, Combine(Draw(o, t), claims), Drawn(t));
  }

  lemma {:induction false} BeforeShift(t: Transcript, proofs: seq<LayerProof>, i: nat)
    requires 0 < i <= |proofs|
    ensures BeforeLayer(t, proofs, i)
         == BeforeLayer(AfterMessage(AfterRounds(Drawn(t), proofs[0].rounds), proofs[0].nextClaims), proofs[1..], i - 1)
  {
    hide AfterMessage, AfterRounds;
    if i > 1 { BeforeShift(t, proofs, i - 1); }
  }

  /** The draws of an accepted run are the ones that `DrawBinds` speaks of. */
  lemma VerifierDraws(o: Oracle, layers: seq<Layer>, proof: CircuitProof, root: Bytes, t: Transcript, i: nat, j: nat)
    returns (points: (Vec, Vec), claims: Pair)
    requires layers != [] && i < |layers| && Verify(o, layers, proof, root, t).0.Ok? && j < 2 * layers[i].nextLog
    ensures |proof.layers| == |layers| && |proof.layers[i].rounds| == |proof.layers[i].roundPads| == 2 * layers[i].nextLog
    ensures PlaceIn(layers, proof.layers, ChallengeAt(i, 0)) && PlaceIn(layers, proof.layers, ChallengeAt(i, j + 1))
    ensures var start := DrawnFrom(t, layers, root, proof.layers, ChallengeAt(i, 0));
            && VerifyLayer(o, layers[i], proof.layers[i], points, claims, start).0.Ok?
            && LayerRun(o, layers[i], proof.layers[i], claims, start).point[j]
               == Draw(o, DrawnFrom(t, layers, root, proof.layers, ChallengeAt(i, j + 1)))
    ensures forall d :: 0 <= d < layers[0].outLog ==>
              && PlaceIn(layers, proof.layers, OutputAt(d))
              && OutputPoint(o, layers, root, t)[d] == Draw(o, DrawnFrom(t, layers, root, proof.layers, OutputAt(d)))
  {
    hide Draw, VerifyLayer, AfterMessage, AfterRounds, RunRounds, ProofPads, CircuitPads, MixDomain;
    var g, ps := OutputPoint(o, layers, root, t), proof.layers;
    var begin := AfterOutputPoint(layers, root, t);
    forall l | 0 <= l < |layers| ensures |ps[l].rounds| == |ps[l].roundPads| == 2 * layers[l].nextLog {
      var at, values := LayerReached(o, layers, ps, (g, g), (0, 0), begin, l);
      LayerEnd(o, layers[l], ps[l], at, values, BeforeLayer(begin, ps, l));
    }
    points, claims := LayerReached(o, layers, ps, (g, g), (0, 0), begin, i);
    var start := BeforeLayer(begin, ps, i);
    RoundDraw(o, ps[i].rounds, ps[i].roundPads, Combine(Draw(o, start), claims), Drawn(start), j);
    forall d | 0 <= d < layers[0].outLog
      ensures PlaceIn(layers, ps, OutputAt(d)) && g[d] == Draw(o, DrawnFrom(t, layers, root, ps, OutputAt(d)))
    {
      PointDraw(o, MixDomain(t, layers, root), layers[0].outLog, d);
    }
  }

  // ----- pads -----

  /** What the two draws of a pad pair hash. */
  ghost function PadDraw(layer: nat, kind: string, item: nat, slot: nat): Transcript
  {
    Transcript(OtpTranscript(layer, kind, item).history, slot)
  }

  predicate IsPadKind(kind: string) { kind == "P" || kind == "W" }

  ghost predicate PadPlace(layer: nat, kind: string, item: nat, slot: nat)
  {
    layer < Pow256(8) && IsPadKind(kind) && item < Pow256(8) && slot < 2
  }

  lemma PadStrings(layer: nat, kind: string, item: nat)
    ensures var domain := Ascii("eu-id-ec-coproc-otp-pad-pair-v1");
            OtpTranscript(layer, kind, item)
            == Transcript([seq(32, _ => 0), domain, domain, ToBigEndian(layer, 8), Ascii(kind), ToBigEndian(item, 8)], 0)
  {
    hide ToBigEndian, Ascii;
  }

  lemma KindDetermined(kind: string, kind': string)
    requires IsPadKind(kind) && IsPadKind(kind') && Ascii(kind) == Ascii(kind')
    ensures kind == kind'
  {
    assert |kind| == |kind'| == 1;
    assert Ascii(kind)[0] == Ascii(kind')[0];
  }

  lemma SmallCounts()
    ensures 32 < Pow256(8)
  {
    PowerNext(0);
    PowerNext(1);
    PowerNone();
    hide Pow256;
    PowerGrows(2, 6);
  }

  lemma {:induction false} PowerGrows(m: nat, n: nat)
    ensures Pow256(m + n) >= Pow256(m)
  {
    if n > 0 { PowerGrows(m, n - 1); }
  }

  lemma PadFits(layer: nat, kind: string, item: nat, slot: nat)
    requires PadPlace(layer, kind, item, slot)
    ensures FitsU64(PadDraw(layer, kind, item, slot))
  {
    hide Pow256, ToBigEndian;
    SmallCounts();
    PadStrings(layer, kind, item);
    var h := OtpTranscript(layer, kind, item).history;
    forall i | 0 <= i < |h| ensures |h[i]| <= 32 {
      assert |Ascii(kind)| == 1;
    }
  }

  /** Pads of different layers, kinds, items or slots hash different streams. */
  lemma PadStreams(layer: nat, kind: string, item: nat, slot: nat, layer': nat, kind': string, item': nat, slot': nat)
    requires PadPlace(layer, kind, item, slot) && PadPlace(layer', kind', item', slot')
    requires Hashed(PadDraw(layer, kind, item, slot)) == Hashed(PadDraw(layer', kind', item', slot'))
    ensures layer == layer' && kind == kind' && item == item' && slot == slot'
  {
    hide Pow256, ToBigEndian, FitsU64, Hashed, Ascii;
    PadFits(layer, kind, item, slot);
    PadFits(layer', kind', item', slot');
    var d, d' := PadDraw(layer, kind, item, slot), PadDraw(layer', kind', item', slot');
    HashedDetermines(d, d');
    PadStrings(layer, kind, item);
    PadStrings(layer', kind', item');
    assert d.history[3] == d'.history[3] && d.history[4] == d'.history[4] && d.history[5] == d'.history[5];
    SameNumber(layer, layer', 8);
    SameNumber(item, item', 8);
    KindDetermined(kind, kind');
  }

  type PadChoice = (nat, string, nat) -> Pair

  function Slot(p: Pair, slot: nat): Fp { if slot == 0 then p.0 else p.1 }

  ghost predicate StreamOf(s: Bytes, layer: nat, kind: string, item: nat, slot: nat)
  {
    PadPlace(layer, kind, item, slot) && s == Hashed(PadDraw(layer, kind, item, slot))
  }

  lemma StreamPlace(s: Bytes, layer: nat, kind: string, item: nat, slot: nat)
    requires StreamOf(s, layer, kind, item, slot)
    ensures PadPlace(layer, kind, item, slot) && s == Hashed(PadDraw(layer, kind, item, slot))
  {
    hide Hashed, PadDraw, PadPlace;
  }

  ghost function PadDigest(f: PadChoice, s: Bytes): (d: Digest)
  {
    if exists layer: nat, kind: string, item: nat, slot: nat :: StreamOf(s, layer, kind, item, slot) then
      var layer: nat, kind: string, item: nat, slot: nat :| StreamOf(s, layer, kind, item, slot);
      ToBigEndian(ValueOf(Slot(f(layer, kind, item), slot)), 32)
    else ToBigEndian(0, 32)
  }

  /** A hash function that makes the chosen pads. */
  ghost function PadHash(f: PadChoice): Oracle { (s: Bytes) => PadDigest(f, s) }

  lemma PadHashed(f: PadChoice, layer: nat, kind: string, item: nat, slot: nat)
    requires FitsBytes() && PadPlace(layer, kind, item, slot)
    ensures Draw(PadHash(f), PadDraw(layer, kind, item, slot)) == Slot(f(layer, kind, item), slot)
  {
    hide Pow256, ToBigEndian, Hashed, PadDraw, FromBigEndian;
    var s := Hashed(PadDraw(layer, kind, item, slot));
    assert StreamOf(s, layer, kind, item, slot);
    var l: nat, k: string, i: nat, c: nat :|
      StreamOf(s, l, k, i, c) && PadDigest(f, s) == ToBigEndian(ValueOf(Slot(f(l, k, i), c)), 32);
    StreamPlace(s, l, k, i, c);
    PadStreams(layer, kind, item, slot, l, k, i, c);
    var v := Slot(f(layer, kind, item), slot);
    Bounds(v);
    EncodingRoundTrip(ValueOf(v), 32);
    Canonical(v);
  }

  /** Pads are free: for every choice of values there is a hash function under which the pads of all layers are these. */
  lemma PadsFree(f: PadChoice) returns (o: Oracle)
    requires FitsBytes()
    ensures forall layer: nat, kind: string, item: nat :: PadPlace(layer, kind, item, 0) ==>
              OtpPair(o, layer, kind, item) == f(layer, kind, item)
    ensures forall layer: nat, count: nat, k: nat :: layer < Pow256(8) && k < count <= Pow256(8) ==>
              RoundPads(o, layer, count)[k] == f(layer, "P", k)
    ensures forall layer: nat :: layer < Pow256(8) ==>
              var w := f(layer, "W", 0); ClaimPads(o, layer) == (w.0, w.1, Mul(w.0, w.1))
  {
    hide Pow256, Draw, OtpTranscript, FitsBytes, PadHash;
    o := PadHash(f);
    forall layer: nat, kind: string, item: nat | PadPlace(layer, kind, item, 0)
      ensures OtpPair(o, layer, kind, item) == f(layer, kind, item)
    {
      PadHashed(f, layer, kind, item, 0);
      PadHashed(f, layer, kind, item, 1);
      PadSlots(layer, kind, item);
    }
    SmallCounts();
    forall layer: nat, count: nat, k: nat | layer < Pow256(8) && k < count <= Pow256(8)
      ensures RoundPads(o, layer, count)[k] == f(layer, "P", k)
    {
      assert PadPlace(layer, "P", k, 0);
    }
    forall layer: nat | layer < Pow256(8) ensures OtpPair(o, layer, "W", 0) == f(layer, "W", 0) {
      assert PadPlace(layer, "W", 0, 0);
    }
  }

  lemma PadSlots(layer: nat, kind: string, item: nat)
    ensures PadDraw(layer, kind, item, 0) == OtpTranscript(layer, kind, item)
    ensures PadDraw(layer, kind, item, 1) == Drawn(OtpTranscript(layer, kind, item))
  {
    hide ToBigEndian, Ascii;
  }

  // ----- the pads of an accepted proof -----

  lemma {:induction false} PadsDetermined(o: Oracle, layers: seq<Layer>, proofs: seq<LayerProof>, l: nat)
    requires |layers| == |proofs| && l < |layers| && ProofPads(proofs) == CircuitPads(o, layers)
    requires forall k :: 0 <= k < |layers| ==> |proofs[k].roundPads| == 2 * layers[k].nextLog
    ensures proofs[l].roundPads == RoundPads(o, l, 2 * layers[l].nextLog) && proofs[l].claimPads == ClaimPads(o, l)
    decreases |layers|
  {
    hide Flatten, OtpPair, ClaimPads;
    var n := |layers| - 1;
    var q, r := proofs[n].roundPads, RoundPads(o, n, 2 * layers[n].nextLog);
    FlattenLength(q);
    FlattenLength(r);
    var s, t := ProofPads(proofs), CircuitPads(o, layers);
    var m := |ProofPads(proofs[..n])|;
    assert |s| == m + 4 * layers[n].nextLog + 3 && |t| == |CircuitPads(o, layers[..n])| + 4 * layers[n].nextLog + 3;
    assert s[..m] == ProofPads(proofs[..n]) && t[..m] == CircuitPads(o, layers[..n]);
    if l < n {
      PadsDetermined(o, layers[..n], proofs[..n], l);
    } else {
      assert s[m..] == PadVec(q, proofs[n].claimPads) && t[m..] == PadVec(r, ClaimPads(o, n));
      PadVecDetermines(q, proofs[n].claimPads, r, ClaimPads(o, n));
    }
  }

  lemma PadVecDetermines(q: seq<Pair>, c: (Fp, Fp, Fp), r: seq<Pair>, d: (Fp, Fp, Fp))
    requires |q| == |r| && PadVec(q, c) == PadVec(r, d)
    ensures q == r && c == d
  {
    hide Flatten;
    FlattenLength(q);
    FlattenLength(r);
    var n, s, t := 2 * |q|, PadVec(q, c), PadVec(r, d);
    assert s[..n] == Flatten(q) && t[..n] == Flatten(r);
    FlattenDetermines(q, r);
    assert s[n] == t[n] && s[n + 1] == t[n + 1] && s[n + 2] == t[n + 2];
  }

  /** An accepted proof carries the fixed pads of every layer and the claims that the verifier returns. */
  lemma AcceptedPads(o: Oracle, layers: seq<Layer>, proof: CircuitProof, root: Bytes, t: Transcript, l: nat)
    requires layers != [] && l < |layers| && Verify(o, layers, proof, root, t).0.Ok?
    ensures |proof.layers| == |layers| && proof.inputClaims == Verify(o, layers, proof, root, t).0.value
    ensures proof.layers[l].roundPads == RoundPads(o, l, 2 * layers[l].nextLog) && proof.layers[l].claimPads == ClaimPads(o, l)
  {
    hide Draw, VerifyLayer, AfterMessage, AfterRounds, ProofPads, CircuitPads, MixDomain, OtpPair, ClaimPads;
    var g, ps := OutputPoint(o, layers, root, t), proof.layers;
    var begin := AfterOutputPoint(layers, root, t);
    forall k | 0 <= k < |layers| ensures |ps[k].roundPads| == 2 * layers[k].nextLog {
      var at, values := LayerReached(o, layers, ps, (g, g), (0, 0), begin, k);
      LayerEnd(o, layers[k], ps[k], at, values, BeforeLayer(begin, ps, k));
    }
    PadsDetermined(o, layers, ps, l);
  }
}
