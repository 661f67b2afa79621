/** What the bytes of an accepted capsule stand for, said without the parser's own tables and loops. */
module CapsuleMeaning {
  import opened Basics
  import opened CapsuleFormat
  import opened CapsuleParser
  import opened CapsuleLaws
  import opened CapsuleEncoder
  import opened CapsuleCanonical

  // ---------- numbers ----------

  function Power(base: nat, k: nat): (p: nat)
    ensures base > 0 ==> p > 0
  {
    if k == 0 then 1 else base * Power(base, k - 1)
  }

  /** The first `n` bytes as digits to the base 128, the lowest first. */
  function Digits(s: Bytes, n: nat): int
    requires n <= |s|
  {
    SeqSum(seq(n, i requires 0 <= i < n => (s[i] % 128) * Power(128, i)))
  }

  lemma DigitsPush(s: Bytes, n: nat)
    requires n < |s|
    ensures Digits(s, n + 1) == Digits(s, n) + (s[n] % 128) * Power(128, n)
  {
    var all := seq(n + 1, i requires 0 <= i < n + 1 => (s[i] % 128) * Power(128, i));
    assert all[..n] == seq(n, i requires 0 <= i < n => (s[i] % 128) * Power(128, i));
  }

  lemma Associate(a: int, b: int, c: int)
    ensures a * (b * c) == b * (a * c)
  {
  }

  lemma {:induction false} DigitsStep(s: Bytes, n: nat)
    requires 0 < n <= |s|
    ensures Digits(s, n) == s[0] % 128 + 128 * Digits(s[1..], n - 1)
  {
    hide Digits;
    if n == 1 {
      DigitsPush(s, 0);
      NoDigits(s);
      NoDigits(s[1..]);
    } else {
      DigitsStep(s, n - 1);
      DigitsPush(s, n - 1);
      DigitsPush(s[1..], n - 2);
      Associate(s[n - 1] % 128, 128, Power(128, n - 2));
    }
  }

  lemma NoDigits(s: Bytes)
    ensures Digits(s, 0) == 0
  {
  }

  /** `n` bytes with the high bit, but for the last, that hold a number below `limit`. */
  predicate Holds(s: Bytes, n: nat, limit: nat) {
    1 <= n <= |s| && (forall i | 0 <= i < n - 1 :: s[i] >= 128) && s[n - 1] < 128 && Digits(s, n) < limit
  }

  lemma {:induction false} VarintFromHolds(s: Bytes, k: nat)
    requires k <= 9 && VarintFrom(s, k).Good?
    ensures
      var n := |s| - |VarintFrom(s, k).rest|;
      n <= 10 - k && Holds(s, n, VarintLimit(k)) && VarintFrom(s, k) == Good(Digits(s, n), s[n..])
    decreases |s|
  {
    hide Digits, VarintFrom;
    LimitGrows(k);
    VarintReads(s, k);
    VarintFromStep(s, k);
    NoDigits(s[1..]);
    if s[0] < 128 {
      DigitsStep(s, 1);
      assert s[1..] == VarintFrom(s, k).rest;
    } else {
      VarintFromHolds(s[1..], k + 1);
      var m := |s[1..]| - |VarintFrom(s[1..], k + 1).rest|;
      DigitsStep(s, m + 1);
      assert forall i | 0 < i <= m :: s[i] == s[1..][i - 1];
      assert s[1..][m..] == s[m + 1..];
    }
  }

  lemma {:induction false} HoldsIsRead(s: Bytes, k: nat, n: nat)
    requires k <= 9 && n <= 10 - k && Holds(s, n, VarintLimit(k))
    ensures VarintFrom(s, k).Good?
    decreases |s|
  {
    hide Digits, VarintFrom;
    LimitGrows(k);
    DigitsStep(s, n);
    NoDigits(s[1..]);
    VarintFromStep(s, k);
    if n > 1 {
      HoldsBehind(s, n, VarintLimit(k + 1));
      HoldsIsRead(s[1..], k + 1, n - 1);
    }
  }

  lemma HoldsBehind(s: Bytes, n: nat, limit: nat)
    requires n > 1 && Holds(s, n, 128 * limit) && Digits(s, n) == s[0] % 128 + 128 * Digits(s[1..], n - 1)
    ensures Holds(s[1..], n - 1, limit)
  {
    hide Digits;
    assert forall i | 0 <= i < n - 1 :: s[1..][i] == s[i + 1];
  }

  /**
   * A number is read exactly when at most ten bytes hold one of 64 bits, seven bits a byte and the lowest first, all of
   * them but the last with the high bit set; and it is that number that is read.
   */
  lemma VarintIff(s: Bytes)
    ensures Varint(s).Good? <==>
            exists n: nat :: 1 <= n <= |s| && n <= 10 && (forall i | 0 <= i < n - 1 :: s[i] >= 128) && s[n - 1] < 128
                        && Digits(s, n) <= 0xFFFF_FFFF_FFFF_FFFF
    ensures forall n: nat |
      1 <= n <= |s| && n <= 10 && (forall i | 0 <= i < n - 1 :: s[i] >= 128) && s[n - 1] < 128
      && Digits(s, n) <= 0xFFFF_FFFF_FFFF_FFFF :: Varint(s) == Good(Digits(s, n), s[n..])
  {
    hide Digits, VarintFrom, VarintLimit;
    LimitIsU64();
    if Varint(s).Good? {
      VarintFromHolds(s, 0);
    }
    forall n: nat |
      1 <= n <= |s| && n <= 10 && (forall i | 0 <= i < n - 1 :: s[i] >= 128) && s[n - 1] < 128
      && Digits(s, n) <= 0xFFFF_FFFF_FFFF_FFFF
      ensures Varint(s) == Good(Digits(s, n), s[n..])
    {
      HoldsIsRead(s, 0, n);
      VarintFromHolds(s, 0);
      SameEnd(s, n, |s| - |VarintFrom(s, 0).rest|, VarintLimit(0));
    }
  }

  lemma SameEnd(s: Bytes, n: nat, m: nat, limit: nat)
    requires Holds(s, n, limit) && Holds(s, m, limit)
    ensures n == m
  {
    hide Digits;
  }

  // ---------- identifiers and flags ----------

  /** The numbers that follow one another at the head of `s`. */
  function NumbersAt(s: Bytes, count: nat): (numbers: seq<nat>)
    decreases count
  {
    if count == 0 || Varint(s).Bad? then [] else [Varint(s).value] + NumbersAt(AfterNumber(s), count - 1)
  }

  /** A column is read from as many numbers, each of them twice the difference to the identifier before, or its complement. */
  lemma {:induction false} DeltasAre(s: Bytes, count: nat, previous: int)
    requires Deltas(s, count, previous).Good?
    ensures |NumbersAt(s, count)| == count
    ensures forall i | 0 <= i < count ::
              var difference := Deltas(s, count, previous).value[i] - (if i == 0 then previous else Deltas(s, count, previous).value[i - 1]);
              NumbersAt(s, count)[i] == if difference >= 0 then 2 * difference else -2 * difference - 1
    decreases count
  {
    hide Varint;
    if count > 0 {
      DeltasAre(AfterNumber(s), count - 1, previous + SignedVarint(s).value);
    }
  }

  lemma {:induction false} BitSetIs(b: nat, k: nat)
    ensures BitSet(b, k) <==> b / Power(2, k) % 2 == 1
  {
    if k > 0 {
      BitSetIs(b / 2, k - 1);
      HalvedFirst(b, Power(2, k - 1));
    } else {
      assert b / 1 == b;
    }
  }

  lemma HalvedFirst(a: nat, c: nat)
    requires c > 0
    ensures a / 2 / c == a / (2 * c)
  {
    var q := a / 2;
    var p, t := q / c, q % c;
    assert q == c * p + t;
    Regrouped(c, p);
    QuotientIs(a, 2 * c, p, 2 * t + a % 2);
  }

  lemma Regrouped(c: nat, p: nat)
    ensures 2 * (c * p) == (2 * c) * p
  {
  }

  lemma QuotientIs(a: nat, d: nat, q: nat, r: nat)
    requires 0 <= r < d && a == d * q + r
    ensures a / d == q
  {
    var n := a / d;
    assert a == d * n + a % d;
    TimesMonotone(d, n + 1, q);
    TimesMonotone(d, q + 1, n);
  }

  lemma TimesMonotone(d: nat, a: nat, b: nat)
    ensures a <= b ==> d * a <= d * b
  {
  }

  /** The flag of row `i` is the bit of weight `i` modulo eight in byte `i` over eight. */
  lemma FlagsAre(s: Bytes, layout: Layout, rows: nat, i: nat)
    requires layout.violations && Violations(s, layout, rows).Good? && i < rows
    ensures i / 8 < |s| && (Violations(s, layout, rows).value.value[i] <==> s[i / 8] / Power(2, i % 8) % 2 == 1)
  {
    BitSetIs(s[i / 8], i % 8);
  }

  // ---------- headers and columns ----------

  /** What a materialized body carries. */
  predicate Carries(storage: Storage, ids: nat, labels: bool, flags: bool, values: bool) {
    && storage.Rows? && |storage.rows.idColumns| == ids && (storage.rows.labelIndexes.Some? <==> labels)
    && (storage.rows.violations.Some? <==> flags) && (storage.rows.values.Some? <==> values)
  }

  /** What the schema with code `k` carries, one by one. */
  predicate Described(c: Capsule, k: int) {
    && 1 <= k <= 11 && (k == 6 <==> c.schema == PairGroups) && (k == 6 <==> c.storage.Groups?)
    && (k == 1 <==> c.schema == IdViolation) && (k == 1 ==> Carries(c.storage, 1, false, true, false))
    && (k == 2 <==> c.schema == IdIdViolation) && (k == 2 ==> Carries(c.storage, 2, false, true, false))
    && (k == 3 <==> c.schema == IdLabelIdViolation) && (k == 3 ==> Carries(c.storage, 2, true, true, false))
    && (k == 4 <==> c.schema == Value) && (k == 4 ==> Carries(c.storage, 0, false, false, true))
    && (k == 5 <==> c.schema == FiveIds) && (k == 5 ==> Carries(c.storage, 5, false, false, false))
    && (k == 7 <==> c.schema == ThreeIdsViolation) && (k == 7 ==> Carries(c.storage, 3, false, true, false))
    && (k == 8 <==> c.schema == TwoIds) && (k == 8 ==> Carries(c.storage, 2, false, false, false))
    && (k == 9 <==> c.schema == ThreeIds) && (k == 9 ==> Carries(c.storage, 3, false, false, false))
    && (k == 10 <==> c.schema == FourIds) && (k == 10 ==> Carries(c.storage, 4, false, false, false))
    && (k == 11 <==> c.schema == FiveIdsViolation) && (k == 11 ==> Carries(c.storage, 5, false, true, false))
  }

  /** An accepted capsule begins with the letters OCPB and version one; its sixth byte says what it carries. */
  lemma AcceptedIsDescribed(s: Bytes, c: Capsule)
    requires Decode(s, true) == Ok(c)
    ensures |s| >= 7 && s[..5] == [79, 67, 80, 66, 1] && Described(c, s[5])
    ensures exists n: nat ::
      1 <= n <= |s| - 6 && (forall i | 0 <= i < n - 1 :: s[6..][i] >= 128) && s[6..][n - 1] < 128 && c.rowCount == Digits(s[6..], n)
  {
    hide WellFormedRows, WellFormedGroups, Digits, VarintFrom, Body;
    AcceptedIsWellFormed(s, true);
    HeaderIs(s, c);
    VarintFromHolds(s[6..], 0);
    Carried(c);
  }

  lemma HeaderIs(s: Bytes, c: Capsule)
    requires Decode(s, true) == Ok(c)
    ensures |s| >= 7 && s[..5] == [79, 67, 80, 66, 1] && s[5] == SchemaByte(c.schema)
    ensures Varint(s[6..]).Good? && Varint(s[6..]).value == c.rowCount
  {
    hide Body, VarintFrom;
    assert s[4..][1..][1..] == s[6..] && s[4..][..1] == [s[4]] && s[4..][1..][..1] == [s[5]];
    assert s[..5] == s[..4] + [s[4]];
  }

  lemma Carried(c: Capsule)
    requires WellFormed(c)
    ensures Described(c, SchemaByte(c.schema))
  {
    hide Encodable, ValidUtf8;
  }

  /** The parts of a capsule fit its row count, and one another. */
  predicate Content(c: Capsule) {
    && c.rowCount <= 0xFFFF_FFFF_FFFF_FFFF
    && match c.storage
       case Groups(g) => WellFormedGroups(g, c.rowCount)
       case Rows(m) =>
         && (forall column | column in m.idColumns :: |column| == c.rowCount && Encodable(column, 0))
         && (m.labelIndexes.Some? ==>
               && |m.labelIndexes.value| == c.rowCount
               && |m.dictionary| <= c.rowCount && (c.rowCount != 0 ==> m.dictionary != [])
               && (forall i | i in m.labelIndexes.value :: i < |m.dictionary|)
               && (forall d | d in m.dictionary :: ValidUtf8(d) && |d| <= 0xFFFF_FFFF_FFFF_FFFF))
         && (m.labelIndexes.None? ==> m.dictionary == [])
         && (m.violations.Some? ==> |m.violations.value| == c.rowCount)
         && (m.values.Some? ==> |m.values.value| == c.rowCount && forall v | v in m.values.value :: v <= 0xFFFF_FFFF_FFFF_FFFF)
  }

  /** And everything so described is accepted, from an encoding that begins so. */
  lemma DescribedIsAccepted(c: Capsule, k: int)
    requires Described(c, k) && Content(c) && |Encode(c)| <= ISIZE_MAX
    ensures |Encode(c)| >= 6 && Encode(c)[..5] == [79, 67, 80, 66, 1] && Encode(c)[5] == k
    ensures Decode(Encode(c), true) == Ok(c)
  {
    hide Encodable, ValidUtf8, WellFormedGroups, Decode, EncodeBody, EncodeVarint;
    assert WellFormed(c);
    RoundTrip(c);
  }

  /** A header is refused for the first thing wrong with it. */
  lemma RefusedHeader(s: Bytes)
    ensures |s| < 4 ==> Decode(s, true) == Err(Truncated)
    ensures |s| >= 4 && s[..4] != [79, 67, 80, 66] ==> Decode(s, true) == Err(BadMagic)
    ensures |s| >= 5 && s[..4] == [79, 67, 80, 66] && s[4] != 1 ==> Decode(s, true) == Err(UnsupportedVersion(s[4]))
    ensures |s| >= 6 && s[..4] == [79, 67, 80, 66] && s[4] == 1 && !(1 <= s[5] <= 11) ==>
              Decode(s, true) == Err(UnknownSchema(s[5]))
  {
    hide CapsuleAt, BehindHeader;
    HeaderSplit(s, true);
    if |s| >= 6 {
      CodesAre(s[5]);
    }
  }

  lemma CodesAre(k: Byte)
    ensures SchemaOf(k).Some? <==> 1 <= k <= 11
  {
  }
}
