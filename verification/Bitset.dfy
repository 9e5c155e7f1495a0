/**
 Bitsets of Lab3/src/porcupine/bitset.go: a slice of 64-bit words, changed in place by `Set` and `Clear`.
 A bitset refines the finite set `Members` of the positions whose bit is on.
 */
module Bitset {
  import opened Powers

  // ----- Machine words -----

  type uint64 = w: nat | w < 0x1_0000_0000_0000_0000

  /** Bit `j` of a word, counted from the low end. */
  predicate TestBit(w: nat, j: nat) {
    if j == 0 then w % 2 == 1 else TestBit(w / 2, j - 1)
  }

  /** Bitwise `x | y`, `x &^ y` and `x ^ y`, digit by digit. */
  function Or(x: nat, y: nat): nat {
    if x == 0 then y else 2 * Or(x / 2, y / 2) + (if x % 2 == 1 || y % 2 == 1 then 1 else 0)
  }

  function AndNot(x: nat, y: nat): nat {
    if x == 0 then 0 else 2 * AndNot(x / 2, y / 2) + (if x % 2 == 1 && y % 2 == 0 then 1 else 0)
  }

  function Xor(x: nat, y: nat): nat {
    if x == 0 then y else 2 * Xor(x / 2, y / 2) + (if x % 2 != y % 2 then 1 else 0)
  }

  lemma {:induction false} ZeroBits(j: nat)
    ensures !TestBit(0, j)
  {
    if j > 0 {
      ZeroBits(j - 1);
    }
  }

  lemma {:induction false} OrBits(x: nat, y: nat, j: nat)
    ensures TestBit(Or(x, y), j) <==> TestBit(x, j) || TestBit(y, j)
  {
    if x == 0 {
      ZeroBits(j);
    } else if j > 0 {
      OrBits(x / 2, y / 2, j - 1);
    }
  }

  lemma {:induction false} AndNotBits(x: nat, y: nat, j: nat)
    ensures TestBit(AndNot(x, y), j) <==> TestBit(x, j) && !TestBit(y, j)
  {
    if x == 0 {
      ZeroBits(j);
    } else if j > 0 {
      AndNotBits(x / 2, y / 2, j - 1);
    }
  }

  lemma {:induction false} XorBits(x: nat, y: nat, j: nat)
    ensures TestBit(Xor(x, y), j) <==> (TestBit(x, j) <==> !TestBit(y, j))
  {
    if x == 0 {
      ZeroBits(j);
    } else if j > 0 {
      XorBits(x / 2, y / 2, j - 1);
    }
  }

  lemma {:induction false} Pow2Bits(k: nat, j: nat)
    ensures TestBit(Pow2(k), j) <==> j == k
  {
    if k == 0 {
      if j > 0 {
        ZeroBits(j - 1);
      }
    } else if j > 0 {
      Pow2Bits(k - 1, j - 1);
    }
  }

  lemma {:induction false} OrFits(x: nat, y: nat, k: nat)
    requires x < Pow2(k) && y < Pow2(k)
    ensures Or(x, y) < Pow2(k)
  {
    if x != 0 && k > 0 {
      OrFits(x / 2, y / 2, k - 1);
    }
  }

  lemma {:induction false} AndNotFits(x: nat, y: nat)
    ensures AndNot(x, y) <= x
  {
    if x != 0 {
      AndNotFits(x / 2, y / 2);
    }
  }

  lemma {:induction false} XorFits(x: nat, y: nat, k: nat)
    requires x < Pow2(k) && y < Pow2(k)
    ensures Xor(x, y) < Pow2(k)
  {
    if x != 0 && k > 0 {
      XorFits(x / 2, y / 2, k - 1);
    }
  }

  /** A word of `k` bits is determined by those bits. */
  lemma {:induction false} WordExtensionality(x: nat, y: nat, k: nat)
    requires x < Pow2(k) && y < Pow2(k)
    requires forall j: nat | j < k :: TestBit(x, j) <==> TestBit(y, j)
    ensures x == y
  {
    if k > 0 {
      forall j: nat | j < k - 1 ensures TestBit(x / 2, j) <==> TestBit(y / 2, j) {
        assert TestBit(x, j + 1) <==> TestBit(y, j + 1);
      }
      WordExtensionality(x / 2, y / 2, k - 1);
      assert TestBit(x, 0) <==> TestBit(y, 0);
    }
  }

  lemma WordSize()
    ensures Pow2(64) == 0x1_0000_0000_0000_0000
  {
    assert Pow2(8) == 256;
    assert Pow2(16) == 0x1_0000;
    assert Pow2(24) == 0x100_0000;
    assert Pow2(32) == 0x1_0000_0000;
    assert Pow2(40) == 0x100_0000_0000;
    assert Pow2(48) == 0x1_0000_0000_0000;
    assert Pow2(56) == 0x100_0000_0000_0000;
  }

  /** `1 << j`, `w | (1 << j)`, `w &^ (1 << j)` and `x ^ y` on 64-bit words. */
  function Mask(j: nat): uint64
    requires j < 64
  {
    WordSize();
    Pow2Increases(j, 64);
    Pow2(j)
  }

  function OrWord(x: uint64, y: uint64): uint64 {
    WordSize();
    OrFits(x, y, 64);
    Or(x, y)
  }

  function AndNotWord(x: uint64, y: uint64): uint64 {
    AndNotFits(x, y);
    AndNot(x, y)
  }

  function XorWord(x: uint64, y: uint64): uint64 {
    WordSize();
    XorFits(x, y, 64);
    Xor(x, y)
  }

  /** The bits of a word that are on. */
  function OnBits(w: uint64): set<nat> {
    set j: nat | j < 64 && TestBit(w, j)
  }

  lemma OnBitsOr(w: uint64, j: nat)
    requires j < 64
    ensures OnBits(OrWord(w, Mask(j))) == OnBits(w) + {j}
  {
    forall p: nat | p < 64 ensures TestBit(Or(w, Mask(j)), p) <==> TestBit(w, p) || p == j {
      OrBits(w, Mask(j), p);
      Pow2Bits(j, p);
    }
  }

  lemma OnBitsAndNot(w: uint64, j: nat)
    requires j < 64
    ensures OnBits(AndNotWord(w, Mask(j))) == OnBits(w) - {j}
  {
    forall p: nat | p < 64 ensures TestBit(AndNot(w, Mask(j)), p) <==> TestBit(w, p) && p != j {
      AndNotBits(w, Mask(j), p);
      Pow2Bits(j, p);
    }
  }

  lemma OnBitsInjective(x: uint64, y: uint64)
    requires OnBits(x) == OnBits(y)
    ensures x == y
  {
    WordSize();
    forall j: nat | j < 64 ensures TestBit(x, j) <==> TestBit(y, j) {
      assert j in OnBits(x) <==> j in OnBits(y);
    }
    WordExtensionality(x, y, 64);
  }

  lemma ZeroHasNoBits()
    ensures OnBits(0) == {}
  {
    forall j: nat ensures !TestBit(0, j) {
      ZeroBits(j);
    }
  }

  // ----- Words side by side -----

  /** Position `64 * i + j` stands for element `j` of the set at index `i`. */
  function Spread(bits: seq<set<nat>>): set<nat> {
    set p: nat | p < 64 * |bits| && p % 64 in bits[p / 64]
  }

  predicate Narrow(bits: seq<set<nat>>) {
    forall i, j | 0 <= i < |bits| && j in bits[i] :: j < 64
  }

  lemma SpreadAdd(bits: seq<set<nat>>, p: nat)
    requires p < 64 * |bits|
    ensures Spread(bits[p / 64 := bits[p / 64] + {p % 64}]) == Spread(bits) + {p}
  {
  }

  lemma SpreadRemove(bits: seq<set<nat>>, p: nat)
    requires p < 64 * |bits|
    ensures Spread(bits[p / 64 := bits[p / 64] - {p % 64}]) == Spread(bits) - {p}
  {
  }

  lemma SpreadInjective(a: seq<set<nat>>, b: seq<set<nat>>)
    requires |a| == |b| && Narrow(a) && Narrow(b)
    requires Spread(a) == Spread(b)
    ensures a == b
  {
    forall i | 0 <= i < |a| ensures a[i] == b[i] {
      forall j: nat ensures j in a[i] <==> j in b[i] {
        if j < 64 {
          var p := 64 * i + j;
          assert p / 64 == i && p % 64 == j;
          assert p in Spread(a) <==> p in Spread(b);
        }
      }
    }
  }

  lemma {:induction false} SpreadSnoc(bits: seq<set<nat>>, last: set<nat>)
    requires forall j | j in last :: j < 64
    ensures |Spread(bits + [last])| == |Spread(bits)| + |last|
    decreases |last|
  {
    var all := bits + [last];
    if last == {} {
      assert Spread(all) == Spread(bits);
    } else {
      var j :| j in last;
      var p := 64 * |bits| + j;
      assert p / 64 == |bits| && p % 64 == j;
      SpreadSnoc(bits, last - {j});
      assert all[|bits| := all[|bits|] - {j}] == bits + [last - {j}];
      SpreadRemove(all, p);
      assert p in Spread(all);
    }
  }

  // ----- Bitsets refine finite sets -----

  function BitSets(words: seq<uint64>): seq<set<nat>> {
    seq(|words|, i requires 0 <= i < |words| => OnBits(words[i]))
  }

  function Members(words: seq<uint64>): set<nat> {
    Spread(BitSets(words))
  }

  lemma BitSetsUpdate(words: seq<uint64>, i: nat, w: uint64)
    requires i < |words|
    ensures BitSets(words[i := w]) == BitSets(words)[i := OnBits(w)]
  {
  }

  /** Two bitsets of one length hold the same set exactly when they hold the same words. */
  lemma MembersInjective(a: seq<uint64>, b: seq<uint64>)
    requires |a| == |b|
    requires Members(a) == Members(b)
    ensures a == b
  {
    SpreadInjective(BitSets(a), BitSets(b));
    forall i | 0 <= i < |a| ensures a[i] == b[i] {
      assert BitSets(a)[i] == BitSets(b)[i];
      OnBitsInjective(a[i], b[i]);
    }
  }

  function WithBit(words: seq<uint64>, pos: nat): seq<uint64>
    requires pos < 64 * |words|
  {
    words[pos / 64 := OrWord(words[pos / 64], Mask(pos % 64))]
  }

  function WithoutBit(words: seq<uint64>, pos: nat): seq<uint64>
    requires pos < 64 * |words|
  {
    words[pos / 64 := AndNotWord(words[pos / 64], Mask(pos % 64))]
  }

  lemma SetBit(words: seq<uint64>, pos: nat)
    requires pos < 64 * |words|
    ensures Members(WithBit(words, pos)) == Members(words) + {pos}
  {
    OnBitsOr(words[pos / 64], pos % 64);
    BitSetsUpdate(words, pos / 64, OrWord(words[pos / 64], Mask(pos % 64)));
    SpreadAdd(BitSets(words), pos);
  }

  lemma ClearBit(words: seq<uint64>, pos: nat)
    requires pos < 64 * |words|
    ensures Members(WithoutBit(words, pos)) == Members(words) - {pos}
  {
    OnBitsAndNot(words[pos / 64], pos % 64);
    BitSetsUpdate(words, pos / 64, AndNotWord(words[pos / 64], Mask(pos % 64)));
    SpreadRemove(BitSets(words), pos);
  }

  // ----- The operations -----

  method NewBitset(bits: nat) returns (b: array<uint64>)
    ensures fresh(b)
    ensures 64 * (b.Length - 1) < bits <= 64 * b.Length
    ensures Members(b[..]) == {}
  {
    var extra := if bits % 64 != 0 then 1 else 0;
    b := new uint64[bits / 64 + extra](_ => 0);
    ZeroHasNoBits();
    assert forall i | 0 <= i < b.Length :: OnBits(b[i]) == {};
  }

  method Clone(b: array<uint64>) returns (c: array<uint64>)
    ensures fresh(c)
    ensures c[..] == b[..]
  {
    c := new uint64[b.Length](i requires 0 <= i < b.Length reads b => b[i]);
  }

  method Set(b: array<uint64>, pos: nat)
    requires pos < 64 * b.Length
    modifies b
    ensures Members(b[..]) == old(Members(b[..])) + {pos}
  {
    SetBit(b[..], pos);
    b[pos / 64] := OrWord(b[pos / 64], Mask(pos % 64));
    assert b[..] == WithBit(old(b[..]), pos);
  }

  method Clear(b: array<uint64>, pos: nat)
    requires pos < 64 * b.Length
    modifies b
    ensures Members(b[..]) == old(Members(b[..])) - {pos}
  {
    ClearBit(b[..], pos);
    b[pos / 64] := AndNotWord(b[pos / 64], Mask(pos % 64));
    assert b[..] == WithoutBit(old(b[..]), pos);
  }

  method Get(b: array<uint64>, pos: nat) returns (on: bool)
    requires pos < 64 * b.Length
    ensures on <==> pos in Members(b[..])
  {
    on := TestBit(b[pos / 64], pos % 64);
    assert OnBits(b[pos / 64]) == BitSets(b[..])[pos / 64];
  }

  method Equals(b: array<uint64>, b2: array<uint64>) returns (same: bool)
    ensures same <==> b[..] == b2[..]
    ensures b.Length == b2.Length ==> (same <==> Members(b[..]) == Members(b2[..]))
  {
    if b.Length != b2.Length {
      return false;
    }
    if b.Length == b2.Length && Members(b[..]) == Members(b2[..]) {
      MembersInjective(b[..], b2[..]);
    }
    for i := 0 to b.Length
      invariant b[..i] == b2[..i]
    {
      if b[i] != b2[i] {
        assert b[..][i] != b2[..][i];
        return false;
      }
    }
    assert b[..] == b[..b.Length] && b2[..] == b2[..b2.Length];
    return true;
  }

  // ----- Counting and hashing -----

  /** `bits.OnesCount64`. */
  function OnesCount(w: uint64): nat {
    |OnBits(w)|
  }

  function PopCount(words: seq<uint64>): nat {
    if words == [] then 0 else PopCount(words[..|words| - 1]) + OnesCount(words[|words| - 1])
  }

  function XorAll(seed: uint64, words: seq<uint64>): uint64 {
    if words == [] then seed else XorWord(XorAll(seed, words[..|words| - 1]), words[|words| - 1])
  }

  function HashOf(words: seq<uint64>): uint64 {
    XorAll(PopCount(words) % 0x1_0000_0000_0000_0000, words)
  }

  method PopCnt(b: array<uint64>) returns (total: nat)
    ensures total == PopCount(b[..]) == |Members(b[..])|
  {
    total := 0;
    for i := 0 to b.Length
      invariant total == PopCount(b[..i])
    {
      assert b[..i + 1][..i] == b[..i];
      total := total + OnesCount(b[i]);
    }
    assert b[..b.Length] == b[..];
    PopCountIsCardinality(b[..]);
  }

  /** How many of the words have bit `j` on. */
  function WordsWith(words: seq<uint64>, j: nat): nat {
    if words == [] then 0
    else WordsWith(words[..|words| - 1], j) + (if TestBit(words[|words| - 1], j) then 1 else 0)
  }

  lemma {:induction false} XorAllBits(seed: uint64, words: seq<uint64>, j: nat)
    ensures TestBit(XorAll(seed, words), j) <==> (TestBit(seed, j) <==> WordsWith(words, j) % 2 == 0)
  {
    if words != [] {
      var k := |words| - 1;
      XorAllBits(seed, words[..k], j);
      XorBits(XorAll(seed, words[..k]), words[k], j);
    }
  }

  /** Bit `j` of the hash is bit `j` of the size of the set, flipped once for each word that has bit `j` on. */
  lemma HashBits(words: seq<uint64>, j: nat)
    ensures TestBit(HashOf(words), j) <==>
            (TestBit(|Members(words)| % 0x1_0000_0000_0000_0000, j) <==> WordsWith(words, j) % 2 == 0)
  {
    PopCountIsCardinality(words);
    hide PopCount, Members, XorAll, TestBit, WordsWith;
    XorAllBits(PopCount(words) % 0x1_0000_0000_0000_0000, words, j);
  }

  method Hash(b: array<uint64>) returns (hash: uint64)
    ensures hash == HashOf(b[..])
  {
    var count := PopCnt(b);
    var seed := count % 0x1_0000_0000_0000_0000;
    hash := seed;
    for i := 0 to b.Length
      invariant hash == XorAll(seed, b[..i])
    {
      assert b[..i + 1][..i] == b[..i];
      hash := XorWord(hash, b[i]);
    }
    assert b[..b.Length] == b[..];
  }

  /** Equal sets have equal hashes, whichever bitsets of one length hold them. */
  lemma EqualSetsHashEqually(a: seq<uint64>, b: seq<uint64>)
    requires |a| == |b|
    requires Members(a) == Members(b)
    ensures HashOf(a) == HashOf(b)
  {
    MembersInjective(a, b);
  }

  /** The population count is the size of the set. */
  lemma {:induction false} PopCountIsCardinality(words: seq<uint64>)
    ensures PopCount(words) == |Members(words)|
  {
    if words != [] {
      var k := |words| - 1;
      PopCountIsCardinality(words[..k]);
      assert BitSets(words) == BitSets(words[..k]) + [OnBits(words[k])];
      SpreadSnoc(BitSets(words[..k]), OnBits(words[k]));
    }
  }
}
