/**
 Rebuilding packet numbers and timestamps from their low bytes: of the candidates
 in the previous, the same and the next epoch the one closest to the expected
 number is taken, in wrapping 64-bit arithmetic.
 */
module PacketNumber {
  import opened Bytes

  function Delta(a: nat, b: nat): (d: nat) { if a < b then b - a else a - b }

  function ClosestTo(target: nat, a: nat, b: nat): (r: nat)
  {
    if Delta(target, a) < Delta(target, b) then a else b
  }

  /** Widths whose epochs divide the 64-bit range: 1, 2, 4 and 6 bytes. */
  predicate IsEpoch(e: nat) { e == 256 || e == TWO16 || e == TWO32 || e == TWO48 }

  function WrapSub(a: nat, b: nat): (r: nat)
    requires a < TWO64 && b < TWO64
  {
    if a >= b then a - b else TWO64 + a - b
  }

  function WrapAdd(a: nat, b: nat): (r: nat)
    requires a < TWO64 && b < TWO64
  {
    if a + b < TWO64 then a + b else a + b - TWO64
  }

  /** The candidate of the epoch starting at `epoch` or of a neighbour. */
  function Choose(e: nat, epoch: nat, target: nat, wire: nat): (r: nat)
    requires e <= TWO48 && epoch < TWO64 && wire < e
  {
    var previous, next := WrapSub(epoch, e), WrapAdd(epoch, e);
    ClosestTo(target, WrapAdd(epoch, wire),
              ClosestTo(target, WrapAdd(previous, wire), WrapAdd(next, wire)))
  }

  function EpochStart(e: nat, base: nat): (s: int)
    requires e > 0
  {
    base - base % e
  }

  function Rebuild(e: nat, base: nat, target: nat, wire: nat): (r: nat)
    requires IsEpoch(e) && base < TWO64 && wire < e
  {
    EpochFacts(e, base);
    Choose(e, EpochStart(e, base), target, wire)
  }

  function CalculatePacketNumberFromWire(length: nat, base: nat, wire: nat): (r: nat)
    requires length in {1, 2, 4, 6} && base < TWO64 && wire < Pow256(length)
  {
    Pow256Values();
    Rebuild(Pow256(length), base, WrapAdd(base, 1), wire)
  }

  function CalculateTimestampFromWire(last: nat, wire: nat): (r: nat)
    requires last < TWO64 && wire < TWO32
  {
    Rebuild(TWO32, last, last, wire)
  }

  // ---------------------------------------------------------------------------

  /** Numbers with the same low part differ by at least an epoch. */
  lemma Apart(p: nat, q: nat, e: nat)
    requires e > 0 && p % e == q % e
    ensures p == q || p >= q + e || q >= p + e
  {
    var x, y := p / e, q / e;
    assert p == e * x + p % e && q == e * y + q % e;
    if x > y {
      MulMono(y + 1, x, e);
    } else if x < y {
      MulMono(x + 1, y, e);
    }
  }

  lemma SameResidue(p: nat, k: int, e: nat)
    requires e > 0 && p + k * e >= 0
    ensures (p + k * e) % e == p % e
  {
    ModUnique(p + k * e, e, p / e + k, p % e);
  }

  /** The start of an epoch, and that the last epoch ends at 2^64. */
  lemma EpochFacts(e: nat, base: nat)
    requires IsEpoch(e) && base < TWO64
    ensures 0 < e <= TWO48 && e == 2 * (e / 2)
    ensures var epoch := EpochStart(e, base);
            0 <= epoch <= base < epoch + e <= TWO64 && epoch % e == 0 && (epoch == 0 || epoch >= e)
  {
    var epoch := EpochStart(e, base);
    assert base == e * (base / e) + base % e;
    ModUnique(epoch, e, base / e, 0);
    Apart(epoch, 0, e);
    assert TWO64 % e == 0;
    Apart(epoch, TWO64, e);
  }

  lemma CandidateResidue(e: nat, wire: nat, n: nat)
    requires e > 0 && wire < e && n % e == 0
    ensures (n + wire) % e == wire
  {
    ModUnique(n + wire, e, n / e, wire);
  }

  /** Of the candidates that are in range the closest one is chosen, never one that wrapped around;
      on a tie it is not the one in the epoch itself. */
  lemma ChooseIsClosest(e: nat, epoch: nat, target: nat, wire: nat)
    requires 0 < e <= TWO48 && wire < e && (epoch == 0 || e <= epoch) && epoch + e <= TWO64
    requires epoch <= target <= epoch + e && target < TWO64
    ensures var r := Choose(e, epoch, target, wire); var c := epoch + wire;
            && r < TWO64 && (r == c || r == c + e || r + e == c)
            && Delta(target, r) <= Delta(target, c)
            && (c + e < TWO64 ==> Delta(target, r) <= Delta(target, c + e))
            && (c >= e ==> Delta(target, r) <= Delta(target, c - e))
            && (r == c && c + e < TWO64 ==> Delta(target, c) < Delta(target, c + e))
            && (r == c && c >= e ==> Delta(target, c) < Delta(target, c - e))
  {
  }

  /** The result is a 64-bit number with the right low part, and none is closer to the target. */
  lemma RebuildIsNearest(e: nat, base: nat, target: nat, wire: nat, p: nat)
    requires IsEpoch(e) && wire < e && base <= target <= base + 1 < TWO64
    requires p < TWO64 && p % e == wire
    ensures var r := Rebuild(e, base, target, wire);
            r < TWO64 && r % e == wire && Delta(target, r) <= Delta(target, p)
  {
    hide Choose, Delta, IsEpoch, EpochStart;
    EpochFacts(e, base);
    var epoch := EpochStart(e, base);
    CandidateResidue(e, wire, epoch);
    ChooseIsClosest(e, epoch, target, wire);
    NearestOfResidue(e, epoch, target, epoch + wire, Rebuild(e, base, target, wire), p);
  }

  lemma NearestOfResidue(e: nat, epoch: nat, target: nat, c: nat, r: nat, p: nat)
    requires e > 0 && epoch <= c < epoch + e && epoch <= target <= epoch + e
    requires p < TWO64 && p % e == c % e
    requires r == c || r == c + e || r + e == c
    requires Delta(target, r) <= Delta(target, c)
    requires c + e < TWO64 ==> Delta(target, r) <= Delta(target, c + e)
    requires c >= e ==> Delta(target, r) <= Delta(target, c - e)
    ensures r % e == p % e && Delta(target, r) <= Delta(target, p)
  {
    SameResidue(c, 1, e);
    Apart(p, c, e);
    if c >= e {
      SameResidue(c, -1, e);
      Apart(p, c - e, e);
    }
    Apart(p, c + e, e);
  }

  /** A number strictly within half an epoch of the target is rebuilt from its low part. */
  lemma RebuildRecovers(e: nat, base: nat, target: nat, p: nat)
    requires IsEpoch(e) && base <= target <= base + 1 < TWO64 && p < TWO64
    requires 2 * Delta(target, p) < e
    ensures Rebuild(e, base, target, p % e) == p
  {
    RebuildIsNearest(e, base, target, p % e, p);
    Apart(Rebuild(e, base, target, p % e), p, e);
  }

  /** Exactly the numbers that are rebuilt from their low part: no closer neighbour an epoch away, and
      of two equally close ones the one outside the base's own epoch. */
  lemma RecoversIff(e: nat, base: nat, target: nat, p: nat)
    requires IsEpoch(e) && base <= target <= base + 1 < TWO64 && p < TWO64
    ensures var own := EpochStart(e, base) <= p < EpochStart(e, base) + e;
            Rebuild(e, base, target, p % e) == p <==>
              && (p + e < TWO64 ==> if own then Delta(target, p) < Delta(target, p + e)
                                    else Delta(target, p) <= Delta(target, p + e))
              && (p >= e ==> if own then Delta(target, p) < Delta(target, p - e)
                             else Delta(target, p) <= Delta(target, p - e))
  {
    hide Choose, Delta, IsEpoch, EpochStart;
    EpochFacts(e, base);
    var epoch, wire := EpochStart(e, base), p % e;
    CandidateResidue(e, wire, epoch);
    ChooseIsClosest(e, epoch, target, wire);
    var r, c := Rebuild(e, base, target, wire), epoch + wire;
    NearestOfResidue(e, epoch, target, c, r, p);
    Apart(r, p, e);
    Apart(c, p, e);
    TieBreak(e, epoch, target, c, r, p);
  }

  lemma TieBreak(e: nat, epoch: nat, target: nat, c: nat, r: nat, p: nat)
    requires 0 < e <= TWO48 && epoch <= c < epoch + e && epoch <= target <= epoch + e && p < TWO64 && r < TWO64
    requires (r == c || r == c + e || r + e == c) && (r == p || r >= p + e || p >= r + e) && (c == p || c >= p + e || p >= c + e)
    requires Delta(target, r) <= Delta(target, p) && Delta(target, r) <= Delta(target, c)
    requires r == c && c + e < TWO64 ==> Delta(target, c) < Delta(target, c + e)
    requires r == c && c >= e ==> Delta(target, c) < Delta(target, c - e)
    ensures var own := epoch <= p < epoch + e;
            r == p <==>
              && (p + e < TWO64 ==> if own then Delta(target, p) < Delta(target, p + e)
                                    else Delta(target, p) <= Delta(target, p + e))
              && (p >= e ==> if own then Delta(target, p) < Delta(target, p - e)
                             else Delta(target, p) <= Delta(target, p - e))
  {
  }

  lemma PacketNumberRecovered(length: nat, base: nat, p: nat)
    requires length in {1, 2, 4, 6} && base + 1 < TWO64 && p < TWO64
    requires 2 * Delta(base + 1, p) < Pow256(length)
    ensures CalculatePacketNumberFromWire(length, base, p % Pow256(length)) == p
  {
    Pow256Values();
    RebuildRecovers(Pow256(length), base, base + 1, p);
  }

  lemma TimestampRecovered(last: nat, t: nat)
    requires last + 1 < TWO64 && t < TWO64 && 2 * Delta(last, t) < TWO32
    ensures CalculateTimestampFromWire(last, t % TWO32) == t
  {
    RebuildRecovers(TWO32, last, last, t);
  }

  // ---------------------------------------------------------------------------
  // The algorithm of appendix A.3 of RFC 9000
  // ---------------------------------------------------------------------------

  function RfcDecode(e: nat, expected: nat, wire: nat): (p: nat)
    requires IsEpoch(e) && wire < e && expected < TWO62
  {
    EpochFacts(e, expected);
    var candidate := EpochStart(e, expected) + wire;
    if candidate <= expected - e / 2 && candidate < TWO62 - e then candidate + e
    else if candidate > expected + e / 2 && candidate >= e then candidate - e
    else candidate
  }

  lemma NeighbourResidues(e: nat, wire: nat, start: nat)
    requires e > 0 && wire < e && start % e == 0
    ensures var c := start + wire; c % e == wire && (c + e) % e == wire && (c >= e ==> (c - e) % e == wire)
  {
    CandidateResidue(e, wire, start);
    SameResidue(start + wire, 1, e);
    if start + wire >= e {
      SameResidue(start + wire, -1, e);
    }
  }

  lemma RfcWindow(e: nat, expected: nat, wire: nat)
    requires IsEpoch(e) && wire < e && expected + 2 * e <= TWO62
    ensures var p := RfcDecode(e, expected, wire);
            && p < TWO62 && p % e == wire
            && ((expected - e / 2 < p <= expected + e / 2) || (expected < p < e))
  {
    hide EpochStart, IsEpoch;
    EpochFacts(e, expected);
    NeighbourResidues(e, wire, EpochStart(e, expected));
  }

  /** The number closest to `t` in a half-open window is closer than its neighbours, but for a tie. */
  lemma WindowTie(e: nat, h: nat, t: nat, p: nat, own: bool)
    requires e == 2 * h && h > 0 && ((t - h < p <= t + h) || (t < p < e)) && p + e < TWO64
    ensures (&& (p + e < TWO64 ==> if own then Delta(t, p) < Delta(t, p + e) else Delta(t, p) <= Delta(t, p + e))
             && (p >= e ==> if own then Delta(t, p) < Delta(t, p - e) else Delta(t, p) <= Delta(t, p - e)))
            <==> !(p == t + h && p >= e && own)
  {
  }

  /** The two algorithms differ exactly when two numbers are equally close and the upper one lies in
      the epoch of the base: then the RFC takes the upper one and this code the lower one. */
  lemma AgreesWithRfcIff(e: nat, base: nat, wire: nat)
    requires IsEpoch(e) && wire < e && base + 1 + 2 * e <= TWO62
    ensures var upper := base + 1 + e / 2;
            Rebuild(e, base, base + 1, wire) == RfcDecode(e, base + 1, wire) <==>
              !(upper % e == wire && e <= upper < EpochStart(e, base) + e)
  {
    hide RfcDecode, Rebuild, EpochStart, IsEpoch, Delta;
    var p, h := RfcDecode(e, base + 1, wire), e / 2;
    RfcWindow(e, base + 1, wire);
    EpochFacts(e, base);
    RecoversIff(e, base, base + 1, p);
    var own := EpochStart(e, base) <= p < EpochStart(e, base) + e;
    WindowTie(e, h, base + 1, p, own);
    if (base + 1 + h) % e == wire {
      Apart(base + 1 + h, p, e);
    }
  }
}
