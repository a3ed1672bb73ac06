/** Bytes of the log file, split into LF-terminated lines, and the row encoding. */
module Framing {
  import opened Episodes
  import opened Wrappers

  newtype byte = x: int | 0 <= x < 256

  const LF: byte := 10
  const OPEN_BRACE: byte := 123

  /** Length of the first line without its LF; |bs| when no line is complete. */
  function LineEnd(bs: seq<byte>): (i: nat)
    ensures i <= |bs|
    ensures LF !in bs[..i]
    ensures i < |bs| ==> bs[i] == LF
  {
    if bs == [] || bs[0] == LF then 0 else 1 + LineEnd(bs[1..])
  }

  /** The complete lines of bs, without their LFs. */
  function Lines(bs: seq<byte>): seq<seq<byte>> {
    var i := LineEnd(bs);
    if i == |bs| then [] else [bs[..i]] + Lines(bs[i + 1..])
  }

  /** The bytes after the last LF. */
  function Tail(bs: seq<byte>): seq<byte> {
    var i := LineEnd(bs);
    if i == |bs| then bs else Tail(bs[i + 1..])
  }

  lemma LineEndIs(bs: seq<byte>, i: nat)
    requires i <= |bs| && LF !in bs[..i]
    requires i < |bs| ==> bs[i] == LF
    ensures LineEnd(bs) == i
  {
    var j := LineEnd(bs);
    assert forall k :: 0 <= k < i ==> bs[..i][k] == bs[k] != LF;
    assert forall k :: 0 <= k < j ==> bs[..j][k] == bs[k] != LF;
  }

  /** One line more. */
  lemma {:induction false} LinesNext(bs: seq<byte>, i: nat)
    requires i == LineEnd(bs)
    ensures i <= |bs|
    ensures Lines(bs) == if i == |bs| then [] else [bs[..i]] + Lines(bs[i + 1..])
    ensures Tail(bs) == if i == |bs| then bs else Tail(bs[i + 1..])
  {
    hide LineEnd;
  }

  /** Appending bytes completes the open tail first and leaves earlier lines alone. */
  lemma {:induction false} LinesOfConcat(a: seq<byte>, b: seq<byte>)
    ensures Lines(a + b) == Lines(a) + Lines(Tail(a) + b)
    ensures Tail(a + b) == Tail(Tail(a) + b)
    decreases |a|
  {
    hide Lines, Tail, LineEnd;
    var i := LineEnd(a);
    LinesNext(a, i);
    if i < |a| {
      assert (a + b)[..i] == a[..i];
      LineEndIs(a + b, i);
      LinesNext(a + b, i);
      assert (a + b)[i + 1..] == a[i + 1..] + b;
      LinesOfConcat(a[i + 1..], b);
    }
  }

  lemma TailHasNoLf(bs: seq<byte>)
    ensures LF !in Tail(bs)
    decreases |bs|
  {
    var i := LineEnd(bs);
    if i < |bs| {
      TailHasNoLf(bs[i + 1..]);
    } else {
      assert bs[..i] == bs;
    }
  }

  /** Bytes without LF never complete a line. */
  lemma OpenBytes(bs: seq<byte>)
    requires LF !in bs
    ensures Lines(bs) == [] && Tail(bs) == bs
  {
    LineEndIs(bs, |bs|);
  }

  /** One line and its LF. */
  lemma OneLine(line: seq<byte>)
    requires LF !in line
    ensures Lines(line + [LF]) == [line] && Tail(line + [LF]) == []
  {
    var bs := line + [LF];
    assert bs[..|line|] == line && bs[|line| + 1..] == [];
    LineEndIs(bs, |line|);
  }

  /** Reading past the first line drops exactly that line. */
  lemma DropFirstLine(bs: seq<byte>)
    requires Lines(bs) != []
    ensures |Lines(bs)[0]| < |bs| && bs[|Lines(bs)[0]|] == LF
    ensures Lines(bs[|Lines(bs)[0]| + 1..]) == Lines(bs)[1..]
    ensures Tail(bs[|Lines(bs)[0]| + 1..]) == Tail(bs)
  {
  }

  /** How rows become lines: json.Marshal and json.Unmarshal. */
  datatype Codec = Codec(enc: Episode -> seq<byte>, dec: seq<byte> -> Option<Episode>)

  /** White space that JSON allows in front of a value, but for LF (section 2 of RFC 8259). */
  predicate White(bs: seq<byte>) {
    forall b :: b in bs ==> b in [9, 13, 32]
  }

  /** What JSON promises of that pair. Control characters inside strings are escaped, so a
      row holds no LF (section 7 of RFC 8259); decoding undoes encoding up to Wire, also behind
      white space; a row is one object, so it starts with a brace. */
  ghost predicate RoundTrips(c: Codec) {
    && (forall ep: Episode ::
          LF !in c.enc(ep) && c.dec(c.enc(ep)) == Some(Wire(ep)) && |c.enc(ep)| > 0 && c.enc(ep)[0] == OPEN_BRACE)
    && (forall t: seq<byte>, ep: Episode :: White(t) ==> c.dec(t + c.enc(ep)) == Some(Wire(ep)))
  }

  /** An object behind anything else on its line, and a proper suffix of an object, are not valid
      JSON: what the object opens it also closes (section 4 of RFC 8259). */
  ghost predicate RejectsFragments(c: Codec) {
    && (forall t: seq<byte>, ep: Episode :: LF !in t && !White(t) ==> c.dec(t + c.enc(ep)) == None)
    && (forall ep: Episode, j: nat :: 0 < j <= |c.enc(ep)| ==> c.dec(c.enc(ep)[j..]) == None)
  }

  function Record(c: Codec, ep: Episode): (r: seq<byte>)
    ensures |r| > 0
  {
    c.enc(ep) + [LF]
  }

  /** The rows that a run of lines decodes to; lines that do not decode are skipped. */
  function Rows(c: Codec, lines: seq<seq<byte>>): seq<Episode> {
    if lines == [] then []
    else
      (match c.dec(lines[0])
       case Some(ep) => [ep]
       case None => []) + Rows(c, lines[1..])
  }

  lemma {:induction false} RowsOfConcat(c: Codec, a: seq<seq<byte>>, b: seq<seq<byte>>)
    ensures Rows(c, a + b) == Rows(c, a) + Rows(c, b)
  {
    if a == [] {
      assert a + b == b;
    } else {
      assert (a + b)[1..] == a[1..] + b;
      RowsOfConcat(c, a[1..], b);
    }
  }
}
