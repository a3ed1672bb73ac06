/** The assumptions about the row encoding can be met: an encoding that meets them. */
module CodecWitness {
  import opened Episodes
  import opened Framing
  import opened Wrappers

  function Unary(n: nat): seq<byte> {
    if n == 0 then [0] else [1] + Unary(n - 1)
  }

  function Signed(i: int): seq<byte> {
    if i < 0 then [1] + Unary(-i) else [0] + Unary(i)
  }

  function Text(s: string): seq<byte> {
    if s == "" then [0] else [1] + Unary(s[0] as int) + Text(s[1..])
  }

  function Texts(ss: seq<string>): seq<byte> {
    if ss == [] then [0] else [1] + Text(ss[0]) + Texts(ss[1..])
  }

  function Entry(o: Observation): seq<byte> {
    Texts([o.observationId, o.role, o.nodeId, o.edgeId, o.conceptId, o.degradedRecallContextId])
    + (Signed(o.weight) + Signed(o.createdAt))
  }

  function Entries(os: seq<Observation>): seq<byte> {
    if os == [] then [0] else [1] + Entry(os[0]) + Entries(os[1..])
  }

  function Body(ep: Episode): seq<byte> {
    Texts([ep.episodeId, ep.episodeGroupId, ep.repoId, ep.sessionId, ep.traceId, ep.kind, ep.contextId,
           ep.actionJson, ep.signalJson, ep.outcome, ep.degradedReason])
    + (Signed(if ep.degraded then 1 else 0) + (Signed(ep.createdAt) + Entries(ep.observations)))
  }

  function Encoded(ep: Episode): seq<byte> { [OPEN_BRACE] + Body(Wire(ep)) }

  /** The line without the white space in front. */
  function Stripped(line: seq<byte>): seq<byte> {
    if line == [] || line[0] !in [9, 13, 32] then line else Stripped(line[1..])
  }

  ghost function Decoded(line: seq<byte>): (r: Option<Episode>)
    ensures r.Some? ==> exists ep :: Encoded(ep) == line && r == Some(Wire(ep))
    ensures r.None? ==> forall ep :: Encoded(ep) != line
  {
    if exists ep :: Encoded(ep) == line then
      var ep :| Encoded(ep) == line;
      Some(Wire(ep))
    else None
  }

  /* ---- Each part ends where it says ---- */

  lemma {:induction false} UnaryEnds(x: nat, y: nat, r: seq<byte>, s: seq<byte>)
    requires Unary(x) + r == Unary(y) + s
    ensures x == y && r == s
  {
    assert (Unary(x) + r)[0] == (Unary(y) + s)[0];
    if x > 0 && y > 0 {
      assert Unary(x) + r == [1] + (Unary(x - 1) + r) && Unary(y) + s == [1] + (Unary(y - 1) + s);
      Tails([1], Unary(x - 1) + r, Unary(y - 1) + s);
      UnaryEnds(x - 1, y - 1, r, s);
    } else {
      Tails([0], r, s);
    }
  }

  lemma Tails(h: seq<byte>, r: seq<byte>, s: seq<byte>)
    requires h + r == h + s
    ensures r == s
  {
    assert r == (h + r)[|h|..] && s == (h + s)[|h|..];
  }

  lemma Regroup(a: seq<byte>, b: seq<byte>, c: seq<byte>)
    ensures a + b + c == a + (b + c)
  {
  }

  lemma SignedEnds(x: int, y: int, r: seq<byte>, s: seq<byte>)
    requires Signed(x) + r == Signed(y) + s
    ensures x == y && r == s
  {
    var u, v := Unary(if x < 0 then -x else x), Unary(if y < 0 then -y else y);
    var h, k: seq<byte> := if x < 0 then [1] else [0], if y < 0 then [1] else [0];
    assert (h + u + r)[0] == h[0] && (k + v + s)[0] == k[0];
    Regroup(h, u, r);
    Regroup(k, v, s);
    Tails(h, u + r, v + s);
    UnaryEnds(if x < 0 then -x else x, if y < 0 then -y else y, r, s);
  }

  lemma {:induction false} TextEnds(x: string, y: string, r: seq<byte>, s: seq<byte>)
    requires Text(x) + r == Text(y) + s
    ensures x == y && r == s
  {
    assert (Text(x) + r)[0] == (Text(y) + s)[0];
    if x != "" && y != "" {
      var a, b := Unary(x[0] as int), Unary(y[0] as int);
      var p, q := Text(x[1..]) + r, Text(y[1..]) + s;
      assert Text(x) + r == [1] + (a + p) && Text(y) + s == [1] + (b + q);
      Tails([1], a + p, b + q);
      UnaryEnds(x[0] as int, y[0] as int, p, q);
      TextEnds(x[1..], y[1..], r, s);
      assert x == [x[0]] + x[1..] && y == [y[0]] + y[1..];
    } else {
      Tails([0], r, s);
    }
  }

  lemma {:induction false} TextsEnd(x: seq<string>, y: seq<string>, r: seq<byte>, s: seq<byte>)
    requires Texts(x) + r == Texts(y) + s
    ensures x == y && r == s
  {
    hide Text;
    assert (Texts(x) + r)[0] == (Texts(y) + s)[0];
    if x != [] && y != [] {
      var p, q := Texts(x[1..]) + r, Texts(y[1..]) + s;
      assert Texts(x) + r == [1] + (Text(x[0]) + p) && Texts(y) + s == [1] + (Text(y[0]) + q);
      Tails([1], Text(x[0]) + p, Text(y[0]) + q);
      TextEnds(x[0], y[0], p, q);
      TextsEnd(x[1..], y[1..], r, s);
      assert x == [x[0]] + x[1..] && y == [y[0]] + y[1..];
    } else {
      Tails([0], r, s);
    }
  }

  lemma EntryEnds(x: Observation, y: Observation, r: seq<byte>, s: seq<byte>)
    requires Entry(x) + r == Entry(y) + s
    ensures x == y && r == s
  {
    hide Texts, Signed;
    var tx := [x.observationId, x.role, x.nodeId, x.edgeId, x.conceptId, x.degradedRecallContextId];
    var ty := [y.observationId, y.role, y.nodeId, y.edgeId, y.conceptId, y.degradedRecallContextId];
    var p, q := Signed(x.createdAt) + r, Signed(y.createdAt) + s;
    assert Entry(x) + r == Texts(tx) + (Signed(x.weight) + p);
    assert Entry(y) + s == Texts(ty) + (Signed(y.weight) + q);
    TextsEnd(tx, ty, Signed(x.weight) + p, Signed(y.weight) + q);
    SignedEnds(x.weight, y.weight, p, q);
    SignedEnds(x.createdAt, y.createdAt, r, s);
    SameFields(tx, ty);
  }

  lemma SameFields(a: seq<string>, b: seq<string>)
    requires a == b
    ensures forall i :: 0 <= i < |a| ==> a[i] == b[i]
  {
  }

  lemma {:induction false} EntriesEnd(x: seq<Observation>, y: seq<Observation>)
    requires Entries(x) == Entries(y)
    ensures x == y
  {
    hide Entry;
    if x != [] && y != [] {
      var p, q := Entries(x[1..]), Entries(y[1..]);
      Regroup([1], Entry(x[0]), p);
      Regroup([1], Entry(y[0]), q);
      Tails([1], Entry(x[0]) + p, Entry(y[0]) + q);
      EntryEnds(x[0], y[0], p, q);
      EntriesEnd(x[1..], y[1..]);
      assert x == [x[0]] + x[1..] && y == [y[0]] + y[1..];
    } else {
      assert Entries(x)[0] == Entries(y)[0];
    }
  }

  lemma BodyInjective(x: Episode, y: Episode)
    requires Body(x) == Body(y)
    ensures x == y
  {
    hide Texts, Signed, Entries;
    var tx := [x.episodeId, x.episodeGroupId, x.repoId, x.sessionId, x.traceId, x.kind, x.contextId,
               x.actionJson, x.signalJson, x.outcome, x.degradedReason];
    var ty := [y.episodeId, y.episodeGroupId, y.repoId, y.sessionId, y.traceId, y.kind, y.contextId,
               y.actionJson, y.signalJson, y.outcome, y.degradedReason];
    var dx, dy := if x.degraded then 1 else 0, if y.degraded then 1 else 0;
    var p, q := Signed(x.createdAt) + Entries(x.observations), Signed(y.createdAt) + Entries(y.observations);
    TextsEnd(tx, ty, Signed(dx) + p, Signed(dy) + q);
    SignedEnds(dx, dy, p, q);
    SignedEnds(x.createdAt, y.createdAt, Entries(x.observations), Entries(y.observations));
    EntriesEnd(x.observations, y.observations);
    SameFields(tx, ty);
  }

  /* ---- Only the first byte is a brace ---- */

  ghost predicate Bits(bs: seq<byte>) {
    forall b :: b in bs ==> b == 0 || b == 1
  }

  lemma {:induction false} UnaryIsBits(n: nat)
    ensures Bits(Unary(n))
  {
    if n > 0 {
      UnaryIsBits(n - 1);
    }
  }

  lemma SignedIsBits(i: int)
    ensures Bits(Signed(i))
  {
    UnaryIsBits(if i < 0 then -i else i);
  }

  lemma {:induction false} TextIsBits(s: string)
    ensures Bits(Text(s))
  {
    if s != "" {
      UnaryIsBits(s[0] as int);
      TextIsBits(s[1..]);
    }
  }

  lemma {:induction false} TextsAreBits(ss: seq<string>)
    ensures Bits(Texts(ss))
  {
    if ss != [] {
      TextIsBits(ss[0]);
      TextsAreBits(ss[1..]);
    }
  }

  lemma {:induction false} EntriesAreBits(os: seq<Observation>)
    ensures Bits(Entries(os))
  {
    if os != [] {
      var o := os[0];
      TextsAreBits([o.observationId, o.role, o.nodeId, o.edgeId, o.conceptId, o.degradedRecallContextId]);
      SignedIsBits(o.weight);
      SignedIsBits(o.createdAt);
      EntriesAreBits(os[1..]);
    }
  }

  lemma BodyIsBits(ep: Episode)
    ensures Bits(Body(ep))
  {
    TextsAreBits([ep.episodeId, ep.episodeGroupId, ep.repoId, ep.sessionId, ep.traceId, ep.kind, ep.contextId,
                  ep.actionJson, ep.signalJson, ep.outcome, ep.degradedReason]);
    SignedIsBits(if ep.degraded then 1 else 0);
    SignedIsBits(ep.createdAt);
    EntriesAreBits(ep.observations);
  }

  lemma EncodedShape(ep: Episode)
    ensures |Encoded(ep)| > 0 && Encoded(ep)[0] == OPEN_BRACE && LF !in Encoded(ep)
    ensures forall i :: 0 < i < |Encoded(ep)| ==> Encoded(ep)[i] != OPEN_BRACE
  {
    hide Body;
    var body := Body(Wire(ep));
    BodyIsBits(Wire(ep));
    assert Encoded(ep) == [OPEN_BRACE] + body;
    forall i | 0 < i < |Encoded(ep)|
      ensures Encoded(ep)[i] != OPEN_BRACE && Encoded(ep)[i] != LF
    {
      assert Encoded(ep)[i] == body[i - 1] && body[i - 1] in body;
    }
  }

  lemma DecodesWhole(ep: Episode)
    ensures Decoded(Encoded(ep)) == Some(Wire(ep))
  {
    hide Body;
    assert Decoded(Encoded(ep)).Some?;
    var ep' :| Encoded(ep') == Encoded(ep) && Decoded(Encoded(ep)) == Some(Wire(ep'));
    Tails([OPEN_BRACE], Body(Wire(ep')), Body(Wire(ep)));
    BodyInjective(Wire(ep'), Wire(ep));
  }

  lemma RejectsOthers(line: seq<byte>, i: nat)
    requires i < |line| && line[i] == OPEN_BRACE && i > 0
    ensures Decoded(line) == None
  {
    forall ep
      ensures Encoded(ep) != line
    {
      EncodedShape(ep);
    }
  }

  lemma RejectsHeadless(line: seq<byte>)
    requires line == [] || line[0] != OPEN_BRACE
    ensures Decoded(line) == None
  {
    forall ep
      ensures Encoded(ep) != line
    {
      EncodedShape(ep);
    }
  }

  /** What is left when the white space is gone: the last k bytes of t, then bs. */
  lemma {:induction false} StrippedMeans(t: seq<byte>, bs: seq<byte>) returns (k: nat)
    requires bs == [] || bs[0] !in [9, 13, 32]
    ensures k <= |t| && Stripped(t + bs) == t[|t| - k..] + bs
    ensures k == 0 <==> White(t)
  {
    if t == [] {
      assert t + bs == bs;
      k := 0;
    } else if t[0] in [9, 13, 32] {
      assert (t + bs)[1..] == t[1..] + bs && t == [t[0]] + t[1..];
      k := StrippedMeans(t[1..], bs);
      assert t[|t| - k..] == t[1..][|t[1..]| - k..];
    } else {
      k := |t|;
      assert t[|t| - k..] == t;
      assert t[0] in t;
    }
  }

  lemma DecodesBehindWhite(t: seq<byte>, ep: Episode)
    ensures White(t) ==> LF !in t
    ensures LF !in t ==> Decoded(Stripped(t + Encoded(ep))) == if White(t) then Some(Wire(ep)) else None
  {
    hide Encoded, Decoded, Stripped;
    EncodedShape(ep);
    var k := StrippedMeans(t, Encoded(ep));
    if k == 0 {
      assert t[|t| - k..] + Encoded(ep) == Encoded(ep);
      DecodesWhole(ep);
    } else {
      RejectsOthers(t[|t| - k..] + Encoded(ep), k);
    }
  }

  lemma SuffixRejected(ep: Episode, j: nat)
    requires 0 < j <= |Encoded(ep)|
    ensures Decoded(Stripped(Encoded(ep)[j..])) == None
  {
    EncodedShape(ep);
    BitsAreNotWhite(ep, j);
    hide Encoded, Decoded, Stripped;
    var bs := Encoded(ep)[j..];
    var k := StrippedMeans([], bs);
    assert [] + bs == bs;
    RejectsHeadless(bs);
  }

  lemma BitsAreNotWhite(ep: Episode, j: nat)
    requires 0 < j <= |Encoded(ep)|
    ensures Encoded(ep)[j..] == [] || Encoded(ep)[j..][0] !in [9, 13, 32]
  {
    hide Body;
    var body := Body(Wire(ep));
    BodyIsBits(Wire(ep));
    if j < |Encoded(ep)| {
      assert Encoded(ep)[j] == body[j - 1] && body[j - 1] in body;
    }
  }

  ghost function Witness(): Codec { Codec(ep => Encoded(ep), line => Decoded(Stripped(line))) }

  lemma WitnessRoundTrips()
    ensures RoundTrips(Witness())
  {
    hide Encoded, Decoded, Stripped, White;
    var c := Witness();
    forall ep: Episode
      ensures LF !in c.enc(ep) && c.dec(c.enc(ep)) == Some(Wire(ep)) && |c.enc(ep)| > 0 && c.enc(ep)[0] == OPEN_BRACE
    {
      EncodedShape(ep);
      var k := StrippedMeans([], Encoded(ep));
      assert [] + Encoded(ep) == Encoded(ep);
      DecodesWhole(ep);
    }
    forall t: seq<byte>, ep: Episode | White(t)
      ensures c.dec(t + c.enc(ep)) == Some(Wire(ep))
    {
      DecodesBehindWhite(t, ep);
    }
  }

  lemma WitnessRejectsFragments()
    ensures RejectsFragments(Witness())
  {
    hide Encoded, Decoded, Stripped, White;
    var c := Witness();
    forall t: seq<byte>, ep: Episode | LF !in t && !White(t)
      ensures c.dec(t + c.enc(ep)) == None
    {
      DecodesBehindWhite(t, ep);
    }
    forall ep: Episode, j: nat | 0 < j <= |c.enc(ep)|
      ensures c.dec(c.enc(ep)[j..]) == None
    {
      SuffixRejected(ep, j);
    }
  }

  /** There is a codec of which everything assumed about JSON is true. */
  lemma CodecExists()
    ensures exists c :: RoundTrips(c) && RejectsFragments(c)
  {
    WitnessRoundTrips();
    WitnessRejectsFragments();
  }
}
