/** Wake-on-WLAN: compiling a masked byte pattern into runs with headers inside a
    fixed-size rule (the pattern loop of skw_wow_enable). */
module WowPattern {
  import opened ByteBuffer
  import opened CInt
  import opened Elements

  /** sizeof(struct skw_pkt_pattern) and sizeof(rule->rule). */
  const HDR: nat := 5
  const RULE: nat := 64
  const OP_SAME: byte := 0
  const TYPE_ETH: byte := 0

  /** A packet matches when byte `at` holds `value`. */
  datatype Constraint = Constraint(at: nat, value: byte)

  /** A header and the consecutive bytes it announces. */
  datatype Run = Run(offset: u16, vals: Data)

  type u16 = x: int | 0 <= x < 0x1_0000

  function Header(offset: nat, len: nat): (b: seq<byte>)
    requires offset < 0x1_0000 && len < 256
    ensures |b| == HDR
  {
    [OP_SAME, TYPE_ETH, offset % 256, offset / 256, len]
  }

  /** Operation and type, the offset's low and high byte, the length. */
  lemma HeaderBytes(offset: nat, len: nat)
    requires offset < 0x1_0000 && len < 256
    ensures var b := Header(offset, len);
            |b| == 5 && b[0] == 0 && b[1] == 0 && b[4] == len && b[2] as int + 256 * b[3] as int == offset
  {
  }

  function EncodeRun(r: Run): (b: seq<byte>)
    ensures |b| == HDR + |r.vals|
  {
    Header(r.offset, |r.vals|) + r.vals
  }

  /** Bytes of the runs from `i` on. */
  function EncodeRuns(rs: seq<Run>, i: nat): seq<byte>
    requires i <= |rs|
    decreases |rs| - i
  {
    if i == |rs| then [] else EncodeRun(rs[i]) + EncodeRuns(rs, i + 1)
  }

  function RunMeaning(r: Run): (cs: seq<Constraint>)
    ensures |cs| == |r.vals|
  {
    seq(|r.vals|, k requires 0 <= k < |r.vals| => Constraint(r.offset + k, r.vals[k]))
  }

  function Meaning(rs: seq<Run>, i: nat): seq<Constraint>
    requires i <= |rs|
    decreases |rs| - i
  {
    if i == |rs| then [] else RunMeaning(rs[i]) + Meaning(rs, i + 1)
  }

  /** The run whose header opens the bytes. */
  function FirstRun(b: seq<byte>): Run
    requires HDR <= |b| && HDR + b[4] as int <= |b|
  {
    Run(b[2] as int + 256 * b[3] as int, b[HDR..HDR + b[4] as int])
  }

  /** How the firmware reads a rule: a header, then as many bytes as it announces,
      and so on. */
  function Decode(b: seq<byte>): seq<Constraint>
    decreases |b|
  {
    if HDR > |b| || HDR + b[4] as int > |b| then []
    else RunMeaning(FirstRun(b)) + Decode(b[HDR + b[4] as int..])
  }

  /** Reading back the encoded runs gives their meaning. */
  lemma {:induction false} DecodeInvertsEncode(rs: seq<Run>, i: nat)
    requires i <= |rs|
    ensures Decode(EncodeRuns(rs, i)) == Meaning(rs, i)
    decreases |rs| - i
  {
    if i < |rs| {
      DecodeInvertsEncode(rs, i + 1);
      DecodeOne(rs[i], EncodeRuns(rs, i + 1));
    }
  }

  lemma DecodeOne(r: Run, rest: seq<byte>)
    ensures Decode(EncodeRun(r) + rest) == RunMeaning(r) + Decode(rest)
  {
    var b, end := EncodeRun(r) + rest, HDR + |r.vals|;
    assert b[HDR..end] == r.vals;
    assert b[end..] == rest;
    assert b[4] == |r.vals|;
    assert FirstRun(b) == r;
  }

  // ----- growing the runs -----

  lemma {:induction false} AppendRun(rs: seq<Run>, r: Run, i: nat)
    requires i <= |rs|
    ensures EncodeRuns(rs + [r], i) == EncodeRuns(rs, i) + EncodeRun(r)
    ensures Meaning(rs + [r], i) == Meaning(rs, i) + RunMeaning(r)
    decreases |rs| - i
  {
    var more := rs + [r];
    if i < |rs| {
      AppendRun(rs, r, i + 1);
      var rest, meant := EncodeRuns(rs, i + 1), Meaning(rs, i + 1);
      assert EncodeRuns(more, i) == EncodeRun(rs[i]) + (rest + EncodeRun(r));
      assert Meaning(more, i) == RunMeaning(rs[i]) + (meant + RunMeaning(r));
    } else {
      LastRun(more, i);
    }
  }

  lemma LastRun(rs: seq<Run>, i: nat)
    requires i + 1 == |rs|
    ensures EncodeRuns(rs, i) == EncodeRun(rs[i]) && Meaning(rs, i) == RunMeaning(rs[i])
  {
    assert EncodeRuns(rs, i + 1) == [] && Meaning(rs, i + 1) == [];
  }

  /** One more byte: the header's length and the end of the run change. */
  lemma AppendByte(r: Run, v: byte)
    requires |r.vals| < 255
    ensures var r' := Run(r.offset, r.vals + [v]);
            && EncodeRun(r') == EncodeRun(r)[4 := |r.vals| + 1] + [v]
            && RunMeaning(r') == RunMeaning(r) + [Constraint(r.offset + |r.vals|, v)]
  {
  }

  // ----- the masked pattern -----

  function Pow2(b: nat): (p: nat)
    ensures p > 0
  {
    if b == 0 then 1 else 2 * Pow2(b - 1)
  }

  function RoundUp8(x: nat): nat {
    (x + 7) / 8 * 8
  }

  /** `byte & BIT(b)` */
  predicate BitSet(m: byte, b: nat) {
    (m / Pow2(b)) % 2 == 1
  }

  /** Mask bit of pattern byte j, least significant bit of each mask byte first. */
  predicate Masked(mask: seq<byte>, j: nat)
    requires j < 8 * |mask|
  {
    BitSet(mask[RoundUp8(j + 1) / 8 - 1], j % 8)
  }

  function Bit(b: bool): nat { if b then 1 else 0 }

  /** Eight flags in one byte, the first in its lowest bit. */
  function Packed(bits: seq<bool>): (m: byte)
    requires |bits| == 8
  {
    Bit(bits[0]) + 2 * Bit(bits[1]) + 4 * Bit(bits[2]) + 8 * Bit(bits[3]) +
    16 * Bit(bits[4]) + 32 * Bit(bits[5]) + 64 * Bit(bits[6]) + 128 * Bit(bits[7])
  }

  lemma OddQuotient(x: nat, low: nat, bit: bool, high: nat, d: nat)
    requires low < d && x == low + d * (Bit(bit) + 2 * high)
    ensures x / d % 2 == Bit(bit)
  {
    var q := Bit(bit) + 2 * high;
    assert x / d == q by { QuotientOf(x, low, q, d); }
  }

  lemma QuotientOf(x: nat, low: nat, q: nat, d: nat)
    requires low < d && x == low + d * q
    ensures x / d == q
  {
    assert q * d == d * q && (q + 1) * d == q * d + d;
    QuotientIs(x, d, q);
  }

  lemma SmallPowers()
    ensures Pow2(0) == 1 && Pow2(1) == 2 && Pow2(2) == 4 && Pow2(3) == 8
    ensures Pow2(4) == 16 && Pow2(5) == 32 && Pow2(6) == 64 && Pow2(7) == 128
  {
    assert Pow2(3) == 8;
    assert Pow2(5) == 32;
  }

  lemma PackedLowBit(bits: seq<bool>, b: nat)
    requires |bits| == 8 && b < 4
    ensures BitSet(Packed(bits), b) <==> bits[b]
  {
    SmallPowers();
    var m, b0, b1, b2, b3 := Packed(bits), Bit(bits[0]), Bit(bits[1]), Bit(bits[2]), Bit(bits[3]);
    var high := Bit(bits[4]) + 2 * Bit(bits[5]) + 4 * Bit(bits[6]) + 8 * Bit(bits[7]);
    match b
    case 0 => OddQuotient(m, 0, bits[0], b1 + 2 * b2 + 4 * b3 + 8 * high, 1);
    case 1 => OddQuotient(m, b0, bits[1], b2 + 2 * b3 + 4 * high, 2);
    case 2 => OddQuotient(m, b0 + 2 * b1, bits[2], b3 + 2 * high, 4);
    case 3 => OddQuotient(m, b0 + 2 * b1 + 4 * b2, bits[3], high, 8);
  }

  lemma PackedHighBit(bits: seq<bool>, b: nat)
    requires |bits| == 8 && 4 <= b < 8
    ensures BitSet(Packed(bits), b) <==> bits[b]
  {
    SmallPowers();
    var m, b4, b5, b6, b7 := Packed(bits), Bit(bits[4]), Bit(bits[5]), Bit(bits[6]), Bit(bits[7]);
    var low := Bit(bits[0]) + 2 * Bit(bits[1]) + 4 * Bit(bits[2]) + 8 * Bit(bits[3]);
    match b
    case 4 => OddQuotient(m, low, bits[4], b5 + 2 * b6 + 4 * b7, 16);
    case 5 => OddQuotient(m, low + 16 * b4, bits[5], b6 + 2 * b7, 32);
    case 6 => OddQuotient(m, low + 16 * b4 + 32 * b5, bits[6], b7, 64);
    case 7 => OddQuotient(m, low + 16 * b4 + 32 * b5 + 64 * b6, bits[7], 0, 128);
  }

  /** The mask holds these flags, eight a byte. */
  ghost predicate Holds(mask: seq<byte>, flags: seq<bool>) {
    && |flags| == 8 * |mask|
    && forall i :: 0 <= i < |mask| ==> mask[i] == Packed(flags[8 * i..8 * i + 8])
  }

  /** Exactly the flagged pattern bytes count. */
  ghost predicate Selects(mask: seq<byte>, flags: seq<bool>) {
    && |flags| == 8 * |mask|
    && forall j :: 0 <= j < |flags| ==> (Masked(mask, j) <==> flags[j])
  }

  /** Pattern byte j counts exactly when flag j is set. */
  lemma MaskedIsFlag(mask: seq<byte>, flags: seq<bool>, j: nat)
    requires Holds(mask, flags) && j < |flags|
    ensures Masked(mask, j) <==> flags[j]
  {
    var i, b := j / 8, j % 8;
    assert RoundUp8(j + 1) / 8 - 1 == i;
    if b < 4 {
      PackedLowBit(flags[8 * i..8 * i + 8], b);
    } else {
      PackedHighBit(flags[8 * i..8 * i + 8], b);
    }
  }

  lemma HeldIsSelected(mask: seq<byte>, flags: seq<bool>)
    requires Holds(mask, flags)
    ensures Selects(mask, flags)
  {
    forall j | 0 <= j < |flags| ensures Masked(mask, j) <==> flags[j] {
      MaskedIsFlag(mask, flags, j);
    }
  }

  /** The constraints the caller asked for, from the first n pattern bytes. */
  function Wanted(pktOffset: nat, pattern: seq<byte>, mask: seq<byte>, n: nat): seq<Constraint>
    requires n <= |pattern| <= 8 * |mask|
  {
    if n == 0 then []
    else
      Wanted(pktOffset, pattern, mask, n - 1) +
      if Masked(mask, n - 1) then [Constraint(pktOffset + n - 1, pattern[n - 1])] else []
  }

  /** The firmware's rule lets a packet wake the system when every constraint holds. */
  ghost predicate Accepts(packet: seq<byte>, cs: seq<Constraint>) {
    forall c :: c in cs ==> c.at < |packet| && packet[c.at] == c.value
  }

  /** What the caller asked for: the flagged pattern bytes, found at the offset. */
  ghost predicate Fits(packet: seq<byte>, pktOffset: nat, pattern: seq<byte>, flags: seq<bool>, n: nat)
    requires n <= |pattern| <= |flags|
  {
    forall j :: 0 <= j < n && flags[j] ==> pktOffset + j < |packet| && packet[pktOffset + j] == pattern[j]
  }

  lemma AcceptsBoth(packet: seq<byte>, a: seq<Constraint>, b: seq<Constraint>)
    ensures Accepts(packet, a + b) <==> Accepts(packet, a) && Accepts(packet, b)
  {
    assert forall c :: c in a + b <==> c in a || c in b;
  }

  lemma AcceptsOne(packet: seq<byte>, c: Constraint)
    ensures Accepts(packet, [c]) <==> c.at < |packet| && packet[c.at] == c.value
    ensures Accepts(packet, [])
  {
    assert c in [c];
  }

  lemma FitsStep(packet: seq<byte>, pktOffset: nat, pattern: seq<byte>, flags: seq<bool>, n: nat)
    requires 0 < n <= |pattern| <= |flags|
    ensures Fits(packet, pktOffset, pattern, flags, n) <==>
      && Fits(packet, pktOffset, pattern, flags, n - 1)
      && (flags[n - 1] ==> pktOffset + n - 1 < |packet| && packet[pktOffset + n - 1] == pattern[n - 1])
  {
  }

  lemma {:induction false} WantedAccepts(packet: seq<byte>, pktOffset: nat, pattern: seq<byte>, mask: seq<byte>,
      flags: seq<bool>, n: nat)
    requires Selects(mask, flags) && n <= |pattern| <= |flags|
    ensures Accepts(packet, Wanted(pktOffset, pattern, mask, n)) <==> Fits(packet, pktOffset, pattern, flags, n)
  {
    if n == 0 {
      assert Wanted(pktOffset, pattern, mask, 0) == [];
    } else {
      var before, c := Wanted(pktOffset, pattern, mask, n - 1), Constraint(pktOffset + n - 1, pattern[n - 1]);
      WantedAccepts(packet, pktOffset, pattern, mask, flags, n - 1);
      FitsStep(packet, pktOffset, pattern, flags, n);
      AcceptsOne(packet, c);
      if flags[n - 1] {
        AcceptsBoth(packet, before, [c]);
      } else {
        assert before + [] == before;
      }
    }
  }

  /** Rule bytes needed for the first n pattern bytes. */
  function Needed(mask: seq<byte>, n: nat): nat
    requires n <= 8 * |mask|
  {
    if n == 0 then 0
    else if !Masked(mask, n - 1) then Needed(mask, n - 1)
    else if n >= 2 && Masked(mask, n - 2) then Needed(mask, n - 1) + 1
    else Needed(mask, n - 1) + HDR + 1
  }

  /** That is a byte for each masked one and a header for each run of them. */
  lemma {:induction false} NeededExactly(mask: seq<byte>, flags: seq<bool>, n: nat)
    requires Selects(mask, flags) && n <= |flags|
    ensures Needed(mask, n) == SetIn(flags, n) + 5 * RunsIn(flags, n)
  {
    if n > 0 {
      NeededExactly(mask, flags, n - 1);
    }
  }

  function SetIn(flags: seq<bool>, n: nat): nat
    requires n <= |flags|
  {
    if n == 0 then 0 else SetIn(flags, n - 1) + Bit(flags[n - 1])
  }

  /** Flags that are set after one that is not. */
  function RunsIn(flags: seq<bool>, n: nat): nat
    requires n <= |flags|
  {
    if n == 0 then 0 else RunsIn(flags, n - 1) + Bit(flags[n - 1] && (n == 1 || !flags[n - 2]))
  }

  lemma NextByte(pktOffset: nat, pattern: seq<byte>, mask: seq<byte>, j: nat)
    requires j < |pattern| <= 8 * |mask|
    ensures Needed(mask, j + 1) == Needed(mask, j) +
      if !Masked(mask, j) then 0 else if j > 0 && Masked(mask, j - 1) then 1 else HDR + 1
    ensures Wanted(pktOffset, pattern, mask, j + 1) == Wanted(pktOffset, pattern, mask, j) +
      if Masked(mask, j) then [Constraint(pktOffset + j, pattern[j])] else []
  {
  }

  lemma {:induction false} NeededGrows(mask: seq<byte>, m: nat, n: nat)
    requires m <= n <= 8 * |mask|
    ensures Needed(mask, m) <= Needed(mask, n)
    decreases n - m
  {
    if m < n {
      NeededGrows(mask, m, n - 1);
    }
  }

  lemma {:induction false} WantedGrows(pktOffset: nat, pattern: seq<byte>, mask: seq<byte>, m: nat, n: nat)
    requires m <= n <= |pattern| <= 8 * |mask|
    ensures Wanted(pktOffset, pattern, mask, m) <= Wanted(pktOffset, pattern, mask, n)
    ensures Wanted(pktOffset, pattern, mask, m) == Wanted(pktOffset, pattern, mask, n)
        <==> Needed(mask, m) == Needed(mask, n)
    decreases n - m
  {
    if m < n {
      WantedGrows(pktOffset, pattern, mask, m, n - 1);
      NeededGrows(mask, m, n - 1);
    }
  }

  /** The longest prefix of the first n pattern bytes that fits the rule. */
  function Fitting(mask: seq<byte>, n: nat): (m: nat)
    requires n <= 8 * |mask|
    ensures m <= n && Needed(mask, m) <= RULE
    ensures m == n <==> Needed(mask, n) <= RULE
  {
    if Needed(mask, n) <= RULE then n else Fitting(mask, n - 1)
  }

  lemma {:induction false} FittingIsLongest(mask: seq<byte>, k: nat, n: nat)
    requires k <= n <= 8 * |mask| && Needed(mask, k) <= RULE
    ensures k <= Fitting(mask, n)
    decreases n
  {
    if k < n && Needed(mask, n) > RULE {
      FittingIsLongest(mask, k, n - 1);
    }
  }

  /** The rule means the masked bytes of the longest prefix that fits. */
  ghost predicate Compiled(pktOffset: nat, pattern: seq<byte>, mask: seq<byte>, b: seq<byte>)
    requires |pattern| <= 8 * |mask|
  {
    Decode(b) == Wanted(pktOffset, pattern, mask, Fitting(mask, |pattern|))
  }

  /** A compiled rule means everything asked for exactly when it all fits. */
  lemma CompiledIsWhole(pktOffset: nat, pattern: seq<byte>, mask: seq<byte>, b: seq<byte>)
    requires |pattern| <= 8 * |mask| && Compiled(pktOffset, pattern, mask, b)
    ensures Decode(b) <= Wanted(pktOffset, pattern, mask, |pattern|)
    ensures Decode(b) == Wanted(pktOffset, pattern, mask, |pattern|) <==> Needed(mask, |pattern|) <= 64
  {
    WantedGrows(pktOffset, pattern, mask, Fitting(mask, |pattern|), |pattern|);
  }

  /** A compiled rule accepts exactly the packets that carry the flagged bytes of the part
      that fits, so it accepts no fewer than were asked for, and no more when all fits: when
      a byte for each flag and five for each run of them are no more than 64. */
  lemma RuleAccepts(packet: seq<byte>, pktOffset: nat, pattern: seq<byte>, mask: seq<byte>, flags: seq<bool>,
      b: seq<byte>)
    requires Holds(mask, flags) && |pattern| <= |flags| && Compiled(pktOffset, pattern, mask, b)
    ensures Accepts(packet, Decode(b)) <==> Fits(packet, pktOffset, pattern, flags, Fitting(mask, |pattern|))
    ensures Fits(packet, pktOffset, pattern, flags, |pattern|) ==> Accepts(packet, Decode(b))
    ensures SetIn(flags, |pattern|) + 5 * RunsIn(flags, |pattern|) <= 64 ==>
      (Accepts(packet, Decode(b)) <==> Fits(packet, pktOffset, pattern, flags, |pattern|))
  {
    HeldIsSelected(mask, flags);
    NeededExactly(mask, flags, |pattern|);
    WantedAccepts(packet, pktOffset, pattern, mask, flags, Fitting(mask, |pattern|));
  }

  /** The bytes encode the runs, which mean `cs`. */
  ghost predicate Emitted(b: seq<byte>, runs: seq<Run>, cs: seq<Constraint>) {
    b == EncodeRuns(runs, 0) && Meaning(runs, 0) == cs
  }

  /** The last run starts at `ptn`, ends at `vi` and would constrain packet byte
      `nextAt` next. */
  ghost predicate Open(runs: seq<Run>, ptn: nat, vi: nat, nextAt: nat) {
    && runs != []
    && var before, r := runs[..|runs| - 1], runs[|runs| - 1];
       && ptn == |EncodeRuns(before, 0)| && vi == ptn + HDR + |r.vals|
       && r.offset + |r.vals| == nextAt
  }

  /** memcpy of the template header, then its offset advanced. */
  method StartRun(rdata: array<byte>, at: nat, offset: nat, ghost runs: seq<Run>, ghost cs: seq<Constraint>)
      returns (ghost runs': seq<Run>)
    requires at + HDR <= rdata.Length && offset < 0x1_0000 && Emitted(rdata[..at], runs, cs)
    modifies rdata
    ensures Emitted(rdata[..at + HDR], runs', cs) && Open(runs', at, at + HDR, offset)
  {
    ghost var r := Run(offset, []);
    AppendRun(runs, r, 0);
    rdata[at], rdata[at + 1] := OP_SAME, TYPE_ETH;
    rdata[at + 2], rdata[at + 3] := offset % 256, offset / 256;
    rdata[at + 4] := 0;
    assert rdata[..at + HDR] == old(rdata[..at]) + EncodeRun(r);
    runs' := runs + [r];
    assert runs'[..|runs|] == runs;
  }

  lemma ExtendLastRun(b: seq<byte>, b': seq<byte>, before: seq<Run>, r: Run, v: byte)
    requires |r.vals| < 255
    requires b == EncodeRuns(before + [r], 0) && |EncodeRuns(before, 0)| + HDR <= |b|
    requires b' == b[|EncodeRuns(before, 0)| + 4 := |r.vals| + 1] + [v]
    ensures var r' := Run(r.offset, r.vals + [v]);
            && b' == EncodeRuns(before + [r'], 0)
            && Meaning(before + [r'], 0) == Meaning(before + [r], 0) + [Constraint(r.offset + |r.vals|, v)]
  {
    var r' := Run(r.offset, r.vals + [v]);
    AppendByte(r, v);
    AppendRun(before, r, 0);
    AppendRun(before, r', 0);
  }

  /** One pattern byte after the open run, counted in the run's header. */
  method PutByte(rdata: array<byte>, ptn: nat, vi: nat, v: byte, ghost nextAt: nat, ghost runs: seq<Run>,
      ghost cs: seq<Constraint>)
      returns (ghost runs': seq<Run>)
    requires vi < rdata.Length < 256 && Emitted(rdata[..vi], runs, cs) && Open(runs, ptn, vi, nextAt)
    modifies rdata
    ensures Emitted(rdata[..vi + 1], runs', cs + [Constraint(nextAt, v)])
    ensures Open(runs', ptn, vi + 1, nextAt + 1)
  {
    ghost var before, r := runs[..|runs| - 1], runs[|runs| - 1];
    assert runs == before + [r];
    AppendRun(before, r, 0);
    ghost var b := rdata[..vi];
    assert b[ptn + 4] == |r.vals|;
    rdata[vi] := v;
    rdata[ptn + 4] := rdata[ptn + 4] + 1;
    assert rdata[..vi + 1] == b[ptn + 4 := |r.vals| + 1] + [v];
    ExtendLastRun(b, rdata[..vi + 1], before, r, v);
    runs' := before + [Run(r.offset, r.vals + [v])];
    assert runs'[..|runs'| - 1] == before;
  }

  /** All bytes are in, the rule is full, or the next byte does not fit. */
  predicate Stopped(mask: seq<byte>, j: nat, n: nat)
    requires j <= n <= 8 * |mask|
  {
    j == n || Needed(mask, j) == RULE || Needed(mask, j + 1) > RULE
  }

  /** Whatever stopped the loop, what it took is the longest prefix that fits,
      but for unmasked bytes. */
  lemma StoppedAtFitting(mask: seq<byte>, j: nat, n: nat)
    requires j <= n <= 8 * |mask| && Needed(mask, j) <= RULE && Stopped(mask, j, n)
    ensures j <= Fitting(mask, n) && Needed(mask, j) == Needed(mask, Fitting(mask, n))
  {
    var m := Fitting(mask, n);
    FittingIsLongest(mask, j, n);
    NeededGrows(mask, j, m);
    if j < m {
      NeededGrows(mask, j + 1, m);
    }
  }

  lemma RuleMeans(pktOffset: nat, pattern: seq<byte>, mask: seq<byte>, j: nat, b: seq<byte>, runs: seq<Run>)
    requires j <= |pattern| <= 8 * |mask|
    requires Emitted(b, runs, Wanted(pktOffset, pattern, mask, j))
    requires Needed(mask, j) <= RULE && Stopped(mask, j, |pattern|)
    ensures Compiled(pktOffset, pattern, mask, b)
  {
    DecodeInvertsEncode(runs, 0);
    StoppedAtFitting(mask, j, |pattern|);
    WantedGrows(pktOffset, pattern, mask, j, Fitting(mask, |pattern|));
  }

  /** A masked byte: a header first when no run is open, unless none fits. */
  method TakeByte(rdata: array<byte>, start: bool, ptn: nat, vi: nat, v: byte, nextAt: nat, ghost runs: seq<Run>,
      ghost cs: seq<Constraint>)
      returns (full: bool, ptn': nat, vi': nat, ghost runs': seq<Run>)
    requires vi < rdata.Length == RULE && nextAt < 0x1_0000 && Emitted(rdata[..vi], runs, cs)
    requires start ==> Open(runs, ptn, vi, nextAt)
    modifies rdata
    ensures full <==> !start && vi + HDR >= RULE
    ensures full ==> vi' == vi && runs' == runs && rdata[..] == old(rdata[..])
    ensures !full ==>
      && vi' == vi + 1 + (if start then 0 else HDR) <= RULE && Open(runs', ptn', vi', nextAt + 1)
      && Emitted(rdata[..vi'], runs', cs + [Constraint(nextAt, v)])
  {
    full, ptn', vi', runs' := false, ptn, vi, runs;
    if !start {
      if vi + HDR >= RULE {
        full := true;
        return;
      }
      ptn' := vi;
      runs' := StartRun(rdata, ptn', nextAt, runs', cs);
      vi' := vi + HDR;
    }
    runs' := PutByte(rdata, ptn', vi', v, nextAt, runs', cs);
    vi' := vi' + 1;
  }

  /** Compiles one pattern into the rule buffer and returns the bytes used. The
      rule means exactly the masked bytes of the longest prefix that fits, which is
      the whole pattern when that does; nothing past the rule is written. */
  method CompilePattern(pktOffset: nat, pattern: seq<byte>, mask: seq<byte>, rdata: array<byte>) returns (vi: nat)
    requires rdata.Length == RULE && |pattern| <= 8 * |mask| && pktOffset + |pattern| <= 0x1_0000
    modifies rdata
    ensures vi <= 64 && Compiled(pktOffset, pattern, mask, rdata[..vi])
  {
    vi := 0;
    var start, full := false, false;
    var j, gap, ptn := 0, 0, 0;
    ghost var runs: seq<Run> := [];
    while j < |pattern|
      invariant 0 <= j == gap <= |pattern|
      invariant start == (j > 0 && Masked(mask, j - 1))
      invariant vi == Needed(mask, j) < RULE
      invariant Emitted(rdata[..vi], runs, Wanted(pktOffset, pattern, mask, j))
      invariant start ==> Open(runs, ptn, vi, pktOffset + j)
    {
      NextByte(pktOffset, pattern, mask, j);
      if Masked(mask, j) {
        ghost var cs := Wanted(pktOffset, pattern, mask, j);
        full, ptn, vi, runs := TakeByte(rdata, start, ptn, vi, pattern[j], pktOffset + gap, runs, cs);
        if full {
          assert Needed(mask, j + 1) > RULE;
          break;
        }
        start := true;
      } else {
        start := false;
      }
      gap := gap + 1;
      j := j + 1;
      if vi >= RULE {
        break;
      }
    }
    RuleMeans(pktOffset, pattern, mask, j, rdata[..vi], runs);
  }
}
