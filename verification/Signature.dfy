/** The pre-image of an Episode's signature: a canonical text for a set of observations. */
module Signature {
  import opened Framing
  import opened StableSort
  import opened StringOrder
  import opened Wrappers

  datatype Key = Key(role: string, fingerprint: seq<byte>)

  const DIGITS: string := "0123456789abcdef"

  /** hex.EncodeToString. */
  function Hex(bs: seq<byte>): (h: string)
    ensures |h| == 2 * |bs|
  {
    if bs == [] then ""
    else
      var b := bs[|bs| - 1] as int;
      Hex(bs[..|bs| - 1]) + [DIGITS[b / 16], DIGITS[b % 16]]
  }

  function Encode(k: Key): string { k.role + ":" + Hex(k.fingerprint) }

  /** Encodings of the keys that have a fingerprint, first occurrences only. */
  function Encoded(keys: seq<Key>): seq<string> {
    if keys == [] then []
    else
      var front, k := Encoded(keys[..|keys| - 1]), keys[|keys| - 1];
      if k.fingerprint == [] || Encode(k) in front then front else front + [Encode(k)]
  }

  function Join(lines: seq<string>): string {
    if lines == [] then ""
    else if |lines| == 1 then lines[0]
    else Join(lines[..|lines| - 1]) + "\n" + lines[|lines| - 1]
  }

  /** What is hashed; None when there is nothing to hash. */
  function PreImage(keys: seq<Key>): Option<string> {
    if Encoded(keys) == [] then None else Some(Join(Sort(Encoded(keys), BeforeFn())))
  }

  /** The lines as the hasher sees them, one write after the other. */
  method JoinLines(lines: seq<string>) returns (pre: string)
    ensures pre == Join(lines)
  {
    pre := "";
    for i := 0 to |lines|
      invariant pre == Join(lines[..i])
    {
      assert lines[..i + 1][..i] == lines[..i];
      if i > 0 {
        pre := pre + "\n";
      }
      pre := pre + lines[i];
    }
    assert lines[..|lines|] == lines;
  }

  /** The encodings of the keys with a fingerprint, without repeats. */
  method EncodeKeys(keys: seq<Key>) returns (encoded: seq<string>)
    ensures encoded == Encoded(keys)
  {
    hide Hex;
    encoded := [];
    var seen: set<string> := {};
    for i := 0 to |keys|
      invariant encoded == Encoded(keys[..i])
      invariant seen == set x | x in encoded
    {
      assert keys[..i + 1][..i] == keys[..i];
      if |keys[i].fingerprint| > 0 {
        var joined := keys[i].role + ":" + Hex(keys[i].fingerprint);
        if joined !in seen {
          seen := seen + {joined};
          encoded := encoded + [joined];
        }
      }
    }
    assert keys[..|keys|] == keys;
  }

  /** computeSignature up to the hash. */
  method ComputePreImage(keys: seq<Key>) returns (pre: string, nonEmpty: bool)
    ensures PreImage(keys) == if nonEmpty then Some(pre) else None
  {
    hide Sort, Join, Hex;
    if |keys| == 0 {
      return "", false;
    }
    var encoded := EncodeKeys(keys);
    if |encoded| == 0 {
      return "", false;
    }
    pre := JoinLines(Sort(encoded, BeforeFn()));
    nonEmpty := true;
  }

  /* ---- Parsing back ---- */

  lemma DigitsDiffer(i: nat, j: nat)
    requires i < 16 && j < 16 && DIGITS[i] == DIGITS[j]
    ensures i == j
  {
  }

  /** The digits of the last byte. */
  lemma HexSnoc(bs: seq<byte>)
    requires bs != []
    ensures var n, b := |bs| - 1, bs[|bs| - 1] as int;
      && |Hex(bs)| == 2 * n + 2 && Hex(bs)[..2 * n] == Hex(bs[..n])
      && Hex(bs)[2 * n] == DIGITS[b / 16] && Hex(bs)[2 * n + 1] == DIGITS[b % 16]
  {
  }

  lemma SameByte(x: int, y: int)
    requires 0 <= x < 256 && 0 <= y < 256
    requires DIGITS[x / 16] == DIGITS[y / 16] && DIGITS[x % 16] == DIGITS[y % 16]
    ensures x == y
  {
    DigitsDiffer(x / 16, y / 16);
    DigitsDiffer(x % 16, y % 16);
  }

  lemma {:induction false} HexInjective(a: seq<byte>, b: seq<byte>)
    requires Hex(a) == Hex(b)
    ensures a == b
  {
    assert |Hex(a)| == 2 * |a| && |Hex(b)| == 2 * |b|;
    hide Hex;
    if a != [] {
      var n := |a| - 1;
      HexSnoc(a);
      HexSnoc(b);
      SameByte(a[n] as int, b[n] as int);
      HexInjective(a[..n], b[..n]);
      assert a == a[..n] + [a[n]] && b == b[..n] + [b[n]];
    }
  }

  /** What a lower-case hexadecimal digit stands for. */
  function DigitValue(ch: char): Option<nat> {
    if '0' <= ch <= '9' then Some(ch as nat - '0' as nat)
    else if 'a' <= ch <= 'f' then Some(10 + (ch as nat - 'a' as nat))
    else None
  }

  /** Reading hexadecimal text, two digits a byte, the higher one first. */
  function Unhex(h: string): Option<seq<byte>> {
    if h == "" then Some([])
    else if |h| == 1 then None
    else
      var front, hi, lo := Unhex(h[..|h| - 2]), DigitValue(h[|h| - 2]), DigitValue(h[|h| - 1]);
      if front.None? || hi.None? || lo.None? then None
      else
        DigitIsSmall(h[|h| - 2]);
        DigitIsSmall(h[|h| - 1]);
        Some(front.value + [(16 * hi.value + lo.value) as byte])
  }

  lemma DigitIsSmall(ch: char)
    ensures DigitValue(ch).Some? ==> DigitValue(ch).value < 16
  {
  }

  lemma DigitReadsBack(i: nat)
    requires i < 16
    ensures DigitValue(DIGITS[i]) == Some(i)
  {
  }

  lemma UnhexTwo(h: string, x: char, y: char)
    requires Unhex(h).Some? && DigitValue(x).Some? && DigitValue(y).Some?
    ensures DigitValue(x).value < 16 && DigitValue(y).value < 16
    ensures Unhex(h + [x, y]) == Some(Unhex(h).value + [(16 * DigitValue(x).value + DigitValue(y).value) as byte])
  {
    DigitIsSmall(x);
    DigitIsSmall(y);
    hide DigitValue;
    var all := h + [x, y];
    assert all[..|all| - 2] == h && all[|all| - 2] == x && all[|all| - 1] == y;
  }

  /** The last byte is written as two digits that stand for its halves. */
  lemma HexLast(bs: seq<byte>) returns (x: char, y: char)
    requires bs != []
    ensures Hex(bs) == Hex(bs[..|bs| - 1]) + [x, y]
    ensures DigitValue(x).Some? && DigitValue(y).Some?
    ensures 16 * DigitValue(x).value + DigitValue(y).value == bs[|bs| - 1] as int
  {
    var b := bs[|bs| - 1] as int;
    x, y := DIGITS[b / 16], DIGITS[b % 16];
    DigitReadsBack(b / 16);
    DigitReadsBack(b % 16);
  }

  lemma UnhexNone()
    ensures Unhex(Hex([])) == Some([])
  {
  }

  /** Fingerprints are written in hexadecimal. */
  lemma {:induction false} HexReadsBack(bs: seq<byte>)
    ensures Unhex(Hex(bs)) == Some(bs)
  {
    hide Hex, Unhex, DigitValue;
    if bs == [] {
      UnhexNone();
    } else {
      var front := bs[..|bs| - 1];
      HexReadsBack(front);
      var x, y := HexLast(bs);
      UnhexTwo(Hex(front), x, y);
      assert bs == front + [bs[|bs| - 1]];
    }
  }

  lemma DigitIsPlain(i: nat)
    requires i < 16
    ensures DIGITS[i] != ':' && DIGITS[i] != '\n'
  {
  }

  lemma {:induction false} HexIsPlain(bs: seq<byte>)
    ensures ':' !in Hex(bs) && '\n' !in Hex(bs)
  {
    if bs != [] {
      var n, b := |bs| - 1, bs[|bs| - 1] as int;
      HexIsPlain(bs[..n]);
      HexSnoc(bs);
      hide Hex;
      DigitIsPlain(b / 16);
      DigitIsPlain(b % 16);
      assert Hex(bs) == Hex(bs[..n]) + [DIGITS[b / 16], DIGITS[b % 16]];
    }
  }

  lemma LastColon(k: Key)
    ensures var e, n := Encode(k), |k.role|;
      && n < |e| && e[n] == ':' && e[..n] == k.role && e[n + 1..] == Hex(k.fingerprint)
      && (forall i :: n < i < |e| ==> e[i] != ':')
  {
    HexIsPlain(k.fingerprint);
    var e, n := Encode(k), |k.role|;
    assert e[n + 1..] == Hex(k.fingerprint);
    assert forall i :: n < i < |e| ==> e[i] == Hex(k.fingerprint)[i - n - 1];
  }

  /** The last colon splits an encoding, so no two keys share one, whatever characters their roles hold. */
  lemma EncodeInjective(k: Key, k': Key)
    requires Encode(k) == Encode(k')
    ensures k == k'
  {
    LastColon(k);
    LastColon(k');
    assert |k.role| == |k'.role|;
    HexInjective(k.fingerprint, k'.fingerprint);
  }

  lemma LastLine(xs: seq<string>)
    requires xs != [] && '\n' !in xs[|xs| - 1]
    ensures var j, x := Join(xs), xs[|xs| - 1];
      var n := |j| - |x|;
      && 0 <= n && j[n..] == x
      && (forall i :: n <= i < |j| ==> j[i] != '\n')
      && (|xs| > 1 ==> n > 0 && j[n - 1] == '\n' && Join(xs[..|xs| - 1]) == j[..n - 1])
      && (|xs| == 1 ==> n == 0)
  {
    var j, x := Join(xs), xs[|xs| - 1];
    var n := |j| - |x|;
    assert j[n..] == x;
    assert forall i :: n <= i < |j| ==> j[i] == x[i - n];
  }

  /** Lines without LF can be read back from their join. */
  lemma {:induction false} JoinInjective(xs: seq<string>, ys: seq<string>)
    requires xs != [] && ys != [] && Join(xs) == Join(ys)
    requires forall x :: x in xs || x in ys ==> '\n' !in x
    ensures xs == ys
    decreases |xs|
  {
    var j, x, y := Join(xs), xs[|xs| - 1], ys[|ys| - 1];
    LastLine(xs);
    LastLine(ys);
    assert |x| == |y|;
    assert x == j[|j| - |x|..] == y;
    assert |xs| == 1 <==> |ys| == 1;
    if |xs| > 1 {
      JoinInjective(xs[..|xs| - 1], ys[..|ys| - 1]);
    }
    assert xs == xs[..|xs| - 1] + [x] && ys == ys[..|ys| - 1] + [y];
  }

  /* ---- What the pre-image identifies ---- */

  /** The observations a signature speaks about. */
  ghost function Pairs(keys: seq<Key>): set<Key> {
    set k | k in keys && k.fingerprint != []
  }

  ghost predicate RolesAreLines(keys: seq<Key>) {
    forall k :: k in keys ==> '\n' !in k.role
  }

  lemma {:induction false} EncodedMeans(keys: seq<Key>)
    ensures forall e :: e in Encoded(keys) <==> exists k :: k in Pairs(keys) && Encode(k) == e
    ensures forall i, j :: 0 <= i < j < |Encoded(keys)| ==> Encoded(keys)[i] != Encoded(keys)[j]
  {
    if keys != [] {
      var front, k := keys[..|keys| - 1], keys[|keys| - 1];
      EncodedMeans(front);
      assert keys == front + [k];
      assert Pairs(keys) == Pairs(front) + if k.fingerprint == [] then {} else {k};
    }
  }

  lemma EncodedIsLines(keys: seq<Key>)
    requires RolesAreLines(keys)
    ensures forall e :: e in Encoded(keys) ==> e != "" && '\n' !in e
  {
    EncodedMeans(keys);
    forall e | e in Encoded(keys)
      ensures e != "" && '\n' !in e
    {
      var k :| k in Pairs(keys) && Encode(k) == e;
      HexIsPlain(k.fingerprint);
    }
  }

  /** Lists that hold the same distinct elements are permutations of each other. */
  lemma {:induction false} SameElements(xs: seq<string>, ys: seq<string>)
    requires forall x :: x in xs <==> x in ys
    requires forall i, j :: 0 <= i < j < |xs| ==> xs[i] != xs[j]
    requires forall i, j :: 0 <= i < j < |ys| ==> ys[i] != ys[j]
    ensures multiset(xs) == multiset(ys)
  {
    forall x
      ensures multiset(xs)[x] == multiset(ys)[x]
    {
      OnceEach(xs, x);
      OnceEach(ys, x);
    }
  }

  lemma {:induction false} OnceEach(xs: seq<string>, x: string)
    requires forall i, j :: 0 <= i < j < |xs| ==> xs[i] != xs[j]
    ensures multiset(xs)[x] == if x in xs then 1 else 0
  {
    if xs != [] {
      var front := xs[..|xs| - 1];
      assert xs == front + [xs[|xs| - 1]];
      OnceEach(front, x);
    }
  }

  lemma SamePairsFromLines(a: seq<Key>, b: seq<Key>)
    requires forall e :: e in Encoded(a) ==> e in Encoded(b)
    ensures Pairs(a) <= Pairs(b)
  {
    EncodedMeans(a);
    EncodedMeans(b);
    forall k | k in Pairs(a)
      ensures k in Pairs(b)
    {
      assert Encode(k) in Encoded(a);
      var k' :| k' in Pairs(b) && Encode(k') == Encode(k);
      EncodeInjective(k, k');
    }
  }

  /** Equal pairs give equal pre-images, whatever the roles hold: order and repeats never matter. */
  lemma SamePairsSamePreImage(a: seq<Key>, b: seq<Key>)
    requires Pairs(a) == Pairs(b)
    ensures PreImage(a) == PreImage(b)
  {
    EncodedMeans(a);
    EncodedMeans(b);
    SameElements(Encoded(a), Encoded(b));
    var lt := BeforeFn();
    BeforeIsWeakOrder();
    SortPermutes(Encoded(a), lt);
    SortPermutes(Encoded(b), lt);
    SortSorts(Encoded(a), lt);
    SortSorts(Encoded(b), lt);
    SortedIsUnique(Sort(Encoded(a), lt), Sort(Encoded(b), lt), lt);
    assert |multiset(Encoded(a))| == |Encoded(a)| && |multiset(Encoded(b))| == |Encoded(b)|;
  }

  /** The pre-image identifies the set of (role, non-empty fingerprint) pairs. */
  lemma SamePreImage(a: seq<Key>, b: seq<Key>)
    requires RolesAreLines(a) && RolesAreLines(b)
    ensures PreImage(a) == PreImage(b) <==> Pairs(a) == Pairs(b)
  {
    if Pairs(a) == Pairs(b) {
      SamePairsSamePreImage(a, b);
    }
    if PreImage(a) == PreImage(b) {
      var lt := BeforeFn();
      SortPermutes(Encoded(a), lt);
      SortPermutes(Encoded(b), lt);
      SameMembers(Encoded(a), Sort(Encoded(a), lt));
      SameMembers(Encoded(b), Sort(Encoded(b), lt));
      EncodedIsLines(a);
      EncodedIsLines(b);
      if Encoded(a) != [] {
        JoinInjective(Sort(Encoded(a), lt), Sort(Encoded(b), lt));
      }
      SamePairsFromLines(a, b);
      SamePairsFromLines(b, a);
    }
  }

  lemma SameMembers(xs: seq<string>, ys: seq<string>)
    requires multiset(xs) == multiset(ys)
    ensures |xs| == |ys| && forall x :: x in xs <==> x in ys
  {
    assert |multiset(xs)| == |xs| && |multiset(ys)| == |ys|;
    assert forall x :: x in xs <==> x in multiset(xs);
    assert forall x :: x in ys <==> x in multiset(ys);
  }

  /** What is hashed: the encodings of the pairs, one a line, each once, in ascending order. */
  lemma PreImageLines(keys: seq<Key>) returns (lines: seq<string>)
    ensures PreImage(keys) == if Pairs(keys) == {} then None else Some(Join(lines))
    ensures forall line :: line in lines <==>
      exists k :: k in Pairs(keys) && line == k.role + ":" + Hex(k.fingerprint)
    ensures forall i, j :: 0 <= i < j < |lines| ==> Before(lines[i], lines[j])
  {
    hide Join, Hex;
    lines := Sort(Encoded(keys), BeforeFn());
    NothingToSign(keys);
    EncodedMeans(keys);
    BeforeIsWeakOrder();
    SortPermutes(Encoded(keys), BeforeFn());
    SortSorts(Encoded(keys), BeforeFn());
    SameMembers(Encoded(keys), lines);
    StillDistinct(Encoded(keys), lines);
    forall i, j | 0 <= i < j < |lines|
      ensures Before(lines[i], lines[j])
    {
      assert !BeforeFn()(lines[j], lines[i]);
      if !Before(lines[i], lines[j]) {
        TiesAreOne(lines[i], lines[j]);
      }
    }
  }

  lemma TwiceIn(xs: seq<string>, i: nat, j: nat)
    requires i < j < |xs| && xs[i] == xs[j]
    ensures multiset(xs)[xs[i]] >= 2
  {
    var before, after := xs[..i + 1], xs[i + 1..];
    assert xs == before + after;
    assert multiset(xs) == multiset(before) + multiset(after);
    assert before[i] == xs[i] && xs[i] in before;
    assert after[j - i - 1] == xs[j] && xs[j] in after;
  }

  lemma StillDistinct(xs: seq<string>, ys: seq<string>)
    requires multiset(xs) == multiset(ys)
    requires forall i, j :: 0 <= i < j < |xs| ==> xs[i] != xs[j]
    ensures forall i, j :: 0 <= i < j < |ys| ==> ys[i] != ys[j]
  {
    forall i, j | 0 <= i < j < |ys|
      ensures ys[i] != ys[j]
    {
      OnceEach(xs, ys[i]);
      if ys[i] == ys[j] {
        TwiceIn(ys, i, j);
      }
    }
  }

  /** There is no pre-image exactly when no observation has a fingerprint. */
  lemma NothingToSign(keys: seq<Key>)
    ensures PreImage(keys).None? <==> Pairs(keys) == {}
  {
    EncodedMeans(keys);
    if Pairs(keys) != {} {
      var k :| k in Pairs(keys);
      assert Encode(k) in Encoded(keys);
    }
    if Encoded(keys) != [] {
      assert Encoded(keys)[0] in Encoded(keys);
    }
  }

  lemma PreImageOfOne(k: Key)
    requires k.fingerprint != []
    ensures PreImage([k]) == Some(Encode(k))
  {
    hide Encode, Sort;
    assert [k][..0] == [];
    assert Encoded([k]) == [Encode(k)];
    SortOne(Encode(k), BeforeFn());
  }

  lemma EncodedOfTwo(k: Key, k': Key)
    requires k.fingerprint != [] && k'.fingerprint != [] && Encode(k) != Encode(k')
    ensures Encoded([k, k']) == [Encode(k), Encode(k')]
  {
    hide Encode;
    assert [k][..0] == [] && [k, k'][..1] == [k];
    assert Encoded([k]) == [Encode(k)];
  }

  lemma JoinTwo(x: string, y: string)
    ensures Join([x, y]) == x + "\n" + y
  {
    assert [x, y][..1] == [x];
    assert Join([x]) == x;
  }

  lemma TwoLines(x: string, y: string)
    requires Before(x, y)
    ensures Join(Sort([x, y], BeforeFn())) == x + "\n" + y
  {
    BeforeAsymmetric(x, y);
    var less := BeforeFn();
    assert !less(y, x);
    hide Before, Sort, Join;
    SortTwo(x, y, less);
    JoinTwo(x, y);
  }

  /** A role that holds LF can imitate two observations. */
  lemma LineFeedInRoleCollides()
    ensures var a, b := [Key("a:00\nb", [0])], [Key("a", [0]), Key("b", [0])];
      PreImage(a) == PreImage(b) && Pairs(a) != Pairs(b)
  {
    hide Sort, Join;
    var k, k0, k1 := Key("a:00\nb", [0]), Key("a", [0]), Key("b", [0]);
    assert Hex([0]) == "00" by {
      assert [0 as byte][..0] == [];
    }
    assert Encode(k) == Encode(k0) + "\n" + Encode(k1);
    assert Before(Encode(k0), Encode(k1));
    PreImageOfOne(k);
    EncodedOfTwo(k0, k1);
    TwoLines(Encode(k0), Encode(k1));
    assert k in Pairs([k]) && k !in Pairs([k0, k1]);
  }
}
