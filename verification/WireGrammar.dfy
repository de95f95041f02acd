/** The wire format as a grammar (Protocol Buffers encoding specification, base
    128 varints and message structure), and that the parser of records accepts
    just what the grammar allows. */
module WireGrammar {
  import opened Options
  import opened Powers
  import opened Wire

  // ---- Varints -------------------------------------------------------------

  /** The sum of the low seven bits of byte i times 128^i. */
  ghost function Weight(b: bytes): nat
  {
    if b == [] then 0 else Weight(b[..|b| - 1]) + b[|b| - 1] % 128 * IntPow(128, |b| - 1)
  }

  /** Up to ten bytes, the last one alone without its high bit, below 2^64. */
  ghost predicate IsVarint(b: bytes, v: nat)
  {
    && 1 <= |b| <= 10
    && (forall i :: 0 <= i < |b| - 1 ==> b[i] >= 128)
    && b[|b| - 1] < 128
    && (|b| == 10 ==> b[9] <= 1)
    && v == Weight(b)
  }

  lemma {:induction false} WeightFront(b: bytes)
    requires b != []
    ensures Weight(b) == b[0] % 128 + 128 * Weight(b[1..])
  {
    if |b| > 1 {
      var c := b[..|b| - 1];
      WeightFront(c);
      assert b[1..][..|b| - 2] == c[1..];
      assert b[|b| - 1] == b[1..][|b| - 2];
      Tenfold(b[|b| - 1] % 128, IntPow(128, |b| - 2));
    }
  }

  lemma Tenfold(x: nat, y: nat)
    ensures x * (128 * y) == 128 * (x * y)
  {
  }

  /** What stands at the front of b: all but the last byte continue, and the
      last allowed byte holds one bit. */
  ghost predicate Continues(b: bytes, left: nat)
  {
    && 1 <= |b| <= left
    && (forall i :: 0 <= i < |b| - 1 ==> b[i] >= 128)
    && b[|b| - 1] < 128
    && (|b| == left ==> b[|b| - 1] <= 1)
  }

  lemma {:induction false} VarintIs(b: bytes, left: nat, n: nat)
    requires n <= |b|
    ensures VarintWithin(b, left).Some? && VarintWithin(b, left).value.len == n <==> Continues(b[..n], left)
    ensures VarintWithin(b, left).Some? && VarintWithin(b, left).value.len == n ==>
              VarintWithin(b, left).value.value == Weight(b[..n])
  {
    hide Weight;
    if left > 0 && b != [] && n > 0 {
      var c := b[..n];
      if b[0] < 128 {
        LastByte(c);
      } else {
        hide Continues;
        VarintIs(b[1..], left - 1, n - 1);
        assert c[1..] == b[1..][..n - 1];
        WeightFront(c);
        ContinuesStep(c, left);
      }
    }
  }

  lemma LastByte(c: bytes)
    requires c != []
    ensures |c| == 1 && c[0] < 128 ==> Weight(c) == c[0]
  {
    WeightFront(c);
  }

  lemma ContinuesStep(c: bytes, left: nat)
    requires c != [] && c[0] >= 128 && left > 0
    ensures Continues(c, left) <==> Continues(c[1..], left - 1)
  {
    if |c| > 1 {
      assert c[|c| - 1] == c[1..][|c| - 2];
      assert (forall i :: 0 <= i < |c| - 1 ==> c[i] >= 128) <==>
             (forall i :: 0 <= i < |c| - 2 ==> c[1..][i] >= 128) by {
        assert forall i :: 0 < i < |c| ==> c[i] == c[1..][i - 1];
      }
    }
  }

  /** A varint is consumed exactly when one stands at the front. */
  lemma ConsumeVarintIff(b: bytes, v: nat, n: nat)
    ensures ConsumeVarint(b) == Some(Taken(v, n)) <==> n <= |b| && IsVarint(b[..n], v)
  {
    hide VarintWithin;
    if n <= |b| {
      VarintIs(b, 10, n);
    }
  }

  /** The varint written for a number is the one of it without needless bytes. */
  lemma {:induction false} EncodedIsLeast(n: nat)
    ensures var b := EncodeVarint(n);
            && Weight(b) == n && b[|b| - 1] < 128
            && (forall i :: 0 <= i < |b| - 1 ==> b[i] >= 128)
            && (|b| > 1 ==> b[|b| - 1] > 0)
  {
    var b := EncodeVarint(n);
    WeightFront(b);
    if n >= 128 {
      EncodedIsLeast(n / 128);
      var c := EncodeVarint(n / 128);
      assert b[1..] == c;
      assert forall i :: 0 < i < |b| ==> b[i] == c[i - 1];
    }
  }

  lemma {:induction false} LeastVarintUnique(a: bytes, b: bytes)
    requires a != [] && b != [] && Weight(a) == Weight(b) && a[|a| - 1] < 128 && b[|b| - 1] < 128
    requires forall i :: 0 <= i < |a| - 1 ==> a[i] >= 128
    requires forall i :: 0 <= i < |b| - 1 ==> b[i] >= 128
    requires (|a| > 1 ==> a[|a| - 1] > 0) && (|b| > 1 ==> b[|b| - 1] > 0)
    ensures a == b
  {
    hide Weight;
    MoreWeighs(a);
    MoreWeighs(b);
    assert a == [a[0]] + a[1..] && b == [b[0]] + b[1..];
    LowDigit(a[0], Weight(a[1..]), b[0], Weight(b[1..]));
    if |a| > 1 && |b| > 1 {
      assert forall i :: 0 < i < |a| ==> a[i] == a[1..][i - 1];
      assert forall i :: 0 < i < |b| ==> b[i] == b[1..][i - 1];
      LeastVarintUnique(a[1..], b[1..]);
    }
  }

  lemma MoreWeighs(b: bytes)
    requires b != [] && b[|b| - 1] < 128 && (|b| > 1 ==> b[|b| - 1] > 0)
    ensures Weight(b) == b[0] % 128 + 128 * Weight(b[1..])
    ensures Weight(b[1..]) > 0 <==> |b| > 1
  {
    WeightFront(b);
    if |b| > 1 {
      LastWeighs(b[1..]);
    }
  }

  lemma LowDigit(a: byte, x: nat, b: byte, y: nat)
    requires a % 128 + 128 * x == b % 128 + 128 * y
    ensures a % 128 == b % 128 && x == y
  {
  }

  lemma LastWeighs(b: bytes)
    requires b != [] && 0 < b[|b| - 1] < 128
    ensures Weight(b) > 0
  {
    PowOfNat(128, |b| - 1);
    Positive(b[|b| - 1] % 128, IntPow(128, |b| - 1));
  }

  lemma Positive(x: nat, y: nat)
    requires x > 0 && y > 0
    ensures x * y > 0
  {
  }

  // ---- Fields --------------------------------------------------------------

  ghost predicate IsTag(b: bytes, num: nat, typ: nat)
  {
    IsVarint(b, 8 * num + typ) && typ < 8 && 1 <= num < 0x8000_0000
  }

  /** b is the value of a field of number num and wire type typ, inside no more
      than depth further groups. */
  ghost predicate IsField(num: nat, typ: nat, b: bytes, depth: int)
    decreases |b|, 1
  {
    || (typ == 0 && exists v :: IsVarint(b, v))
    || (typ == 1 && |b| == 8)
    || (typ == 2 && exists n: nat :: n <= |b| && IsVarint(b[..n], |b| - n))
    || (typ == 3 && depth >= 0 && IsGroup(num, b, depth))
    || (typ == 5 && |b| == 4)
  }

  /** The end tag of the group, or a field and the rest of the group. */
  ghost predicate IsGroup(num: nat, b: bytes, depth: int)
    decreases |b|, 0
  {
    || IsTag(b, num, 4)
    || exists i: nat, j: nat, k: nat, typ: nat :: GroupStep(num, b, depth, i, j, k, typ)
  }

  ghost predicate GroupStep(num: nat, b: bytes, depth: int, i: nat, j: nat, k: nat, typ: nat)
    decreases |b|, -1
  {
    && 0 < i <= j <= |b| && IsTag(b[..i], k, typ) && typ != 4
    && IsField(k, typ, b[i..j], depth - 1) && IsGroup(num, b[j..], depth)
  }

  // ---- The parser accepts the grammar --------------------------------------

  lemma ConsumeTagIff(b: bytes, num: nat, typ: nat, n: nat)
    ensures ConsumeTag(b) == Some(Taken(Tag(num, typ), n)) <==> n <= |b| && IsTag(b[..n], num, typ)
  {
    hide ConsumeVarint, IsVarint;
    ConsumeVarintIff(b, 8 * num + typ, n);
    if ConsumeVarint(b).Some? {
      ConsumeVarintIff(b, ConsumeVarint(b).value.value, n);
    }
  }

  lemma {:induction false} FieldOfValue(tag: Tag, b: bytes, depth: int)
    requires ValueLen(tag, b, depth).Some?
    ensures IsField(tag.num, tag.typ, b[..ValueLen(tag, b, depth).value], depth)
    decreases |b|, 1
  {
    hide ConsumeVarint, IsVarint, GroupLen, IsGroup;
    var n := ValueLen(tag, b, depth).value;
    if tag.typ == VARINT {
      ConsumeVarintIff(b, ConsumeVarint(b).value.value, n);
    } else if tag.typ == LEN {
      var t := ConsumeVarint(b).value;
      ConsumeVarintIff(b, t.value, t.len);
      assert b[..n][..t.len] == b[..t.len];
    } else if tag.typ == START_GROUP {
      GroupOfRest(tag.num, b, depth);
    }
  }

  lemma {:induction false} GroupOfRest(num: nat, b: bytes, depth: int)
    requires GroupLen(num, b, depth).Some?
    ensures IsGroup(num, b[..GroupLen(num, b, depth).value], depth)
    decreases |b|, 0
  {
    hide ConsumeTag, ValueLen, IsTag, IsField;
    var n := GroupLen(num, b, depth).value;
    var t := ConsumeTag(b).value;
    ConsumeTagIff(b, t.value.num, t.value.typ, t.len);
    if t.value.typ != END_GROUP {
      FieldOfValue(t.value, b[t.len..], depth - 1);
      var m := ValueLen(t.value, b[t.len..], depth - 1).value;
      GroupOfRest(num, b[t.len + m..], depth);
      var c := b[..n];
      assert c[..t.len] == b[..t.len];
      assert c[t.len..t.len + m] == b[t.len..][..m];
      assert c[t.len + m..] == b[t.len + m..][..n - t.len - m];
      assert GroupStep(num, c, depth, t.len, t.len + m, t.value.num, t.value.typ);
    }
  }

  lemma {:induction false} ValueOfField(num: nat, typ: nat, b: bytes, depth: int)
    requires IsField(num, typ, b, depth)
    ensures ValueLen(Tag(num, typ), b, depth) == Some(|b|)
    decreases |b|, 1
  {
    hide ConsumeVarint, IsVarint, GroupLen, IsGroup;
    if typ == 0 {
      var v :| IsVarint(b, v);
      assert b[..|b|] == b;
      ConsumeVarintIff(b, v, |b|);
    } else if typ == 2 {
      var n: nat :| n <= |b| && IsVarint(b[..n], |b| - n);
      ConsumeVarintIff(b, |b| - n, n);
    } else if typ == 3 {
      RestOfGroup(num, b, depth);
    }
  }

  lemma {:induction false} RestOfGroup(num: nat, b: bytes, depth: int)
    requires IsGroup(num, b, depth)
    ensures GroupLen(num, b, depth) == Some(|b|)
    decreases |b|, 0
  {
    hide ConsumeTag, ValueLen, IsTag, IsField;
    if IsTag(b, num, 4) {
      assert b[..|b|] == b;
      ConsumeTagIff(b, num, 4, |b|);
    } else {
      var i: nat, j: nat, k: nat, typ: nat :| GroupStep(num, b, depth, i, j, k, typ);
      ConsumeTagIff(b, k, typ, i);
      ValueOfField(k, typ, b[i..j], depth - 1);
      ValueLocal(Tag(k, typ), b[i..j], depth - 1, b[j..]);
      assert b[i..j][..j - i] + b[j..] == b[i..];
      RestOfGroup(num, b[j..], depth);
      GroupIs(num, b, depth, Taken(Tag(k, typ), i), j - i, |b| - j);
    }
  }

  lemma SkipsField(tag: Tag, b: bytes, depth: int, n: nat)
    requires n <= |b| && IsField(tag.num, tag.typ, b[..n], depth)
    ensures ValueLen(tag, b, depth) == Some(n)
  {
    hide ValueLen, IsField;
    ValueOfField(tag.num, tag.typ, b[..n], depth);
    ValueLocal(tag, b[..n], depth, b[n..]);
    assert b[..n][..n] + b[n..] == b;
  }

  /** A value is skipped exactly when the grammar has a field at the front. */
  lemma ValueLenIff(tag: Tag, b: bytes, depth: int, n: nat)
    ensures ValueLen(tag, b, depth) == Some(n) <==> n <= |b| && IsField(tag.num, tag.typ, b[..n], depth)
  {
    hide ValueLen, IsField;
    if ValueLen(tag, b, depth) == Some(n) {
      FieldOfValue(tag, b, depth);
    }
    if n <= |b| && IsField(tag.num, tag.typ, b[..n], depth) {
      SkipsField(tag, b, depth, n);
    }
  }

  /** A record is a tag and a field of the tag's number and type, in which groups
      nest no deeper than 10000. */
  ghost predicate IsRecord(b: bytes, num: nat, typ: nat, tagLen: nat)
  {
    tagLen <= |b| && IsTag(b[..tagLen], num, typ) && IsField(num, typ, b[tagLen..], 10000)
  }

  /** The record at the front of b is the one the grammar has there, and there is
      none exactly when the grammar has none. */
  lemma NextRecordIff(b: bytes, num: nat, typ: nat, tagLen: nat, n: nat)
    requires n <= |b|
    ensures NextRecord(b) == Some(Record(num, typ, tagLen, b[..n])) <==> IsRecord(b[..n], num, typ, tagLen)
  {
    hide ConsumeTag, ValueLen, IsTag, IsField;
    ConsumeTagIff(b, num, typ, tagLen);
    if tagLen <= n {
      assert b[..n][..tagLen] == b[..tagLen];
      assert b[..n][tagLen..] == b[tagLen..][..n - tagLen];
      ValueLenIff(Tag(num, typ), b[tagLen..], MAX_DEPTH, n - tagLen);
    }
    if NextRecord(b) == Some(Record(num, typ, tagLen, b[..n])) {
      var t := ConsumeTag(b).value;
      assert |b[..n]| == n;
    }
  }
}
