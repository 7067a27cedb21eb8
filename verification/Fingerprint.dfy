/** The word phrase of a 32-byte fingerprint hash. */
module Fingerprint {
  import opened Wrappers
  import opened Digits
  import opened Text
  import opened WordCode

  datatype FingerprintError = EntropyTooSmall

  const HASH_LENGTH: nat := 32
  const TWO_64: nat := 0x1_0000_0000_0000_0000

  lemma {:induction false} PowPositive(n: nat, k: nat)
    requires n >= 1
    ensures Pow(n, k) >= 1
  {
    if k > 0 {
      PowPositive(n, k - 1);
    }
  }

  lemma {:induction false} PowGrows(n: nat, k: nat)
    requires n >= 2
    ensures Pow(n, k + 1) > Pow(n, k)
  {
    PowPositive(n, k);
    MulMonotone(2, n, Pow(n, k));
  }

  /** The least `k` from `from` on with `n` to the power `k` at least `target`. */
  function LeastExponent(n: nat, target: nat, from: nat): (k: nat)
    requires n >= 2 && (from > 0 ==> Pow(n, from - 1) < target)
    ensures k >= from && Pow(n, k) >= target && (k > 0 ==> Pow(n, k - 1) < target)
    decreases target - Pow(n, from)
  {
    if Pow(n, from) >= target then from
    else
      PowGrows(n, from);
      LeastExponent(n, target, from + 1)
  }

  /** How many words carry 64 bits. */
  function NumWords(n: nat): (k: nat)
    requires n >= 2
    ensures Pow(n, k) >= TWO_64 && k > 0 && Pow(n, k - 1) < TWO_64
  {
    LeastExponent(n, TWO_64, 0)
  }

  /** The words of the `k` least significant digits of `x` in base `|words|`, lowest first. */
  function Phrase(words: seq<string>, x: nat, k: nat): (r: seq<string>)
    requires |words| > 0
    ensures |r| == k
    decreases k
  {
    if k == 0 then [] else [words[x % |words|]] + Phrase(words, x / |words|, k - 1)
  }

  /** More entropy is asked for than four bits per hash byte. */
  predicate EntropyRefused(n: nat)
    requires n >= 2
  {
    Pow(n, NumWords(n)) > TWO_64 * TWO_64
  }

  lemma {:induction false} PhraseStep(words: seq<string>, x: nat, k: nat, done: seq<string>)
    requires |words| > 0 && k > 0
    ensures done + Phrase(words, x, k) == (done + [words[x % |words|]]) + Phrase(words, x / |words|, k - 1)
  {
  }

  method HashWord(words: seq<string>, hash: seq<byte>) returns (r: Result<string, FingerprintError>)
    requires |words| >= 2 && |hash| == HASH_LENGTH
    ensures EntropyRefused(|words|) ==> r == Err(EntropyTooSmall)
    ensures !EntropyRefused(|words|) ==>
              r == Ok(Join(Phrase(words, Number(hash, 256), NumWords(|words|)), "-"))
  {
    var numWords := NumWords(|words|);
    if EntropyRefused(|words|) {
      return Err(EntropyTooSmall);
    }
    var phrase := [];
    var hashNumber: nat := Number(hash, 256);
    for i := 0 to numWords
      invariant phrase + Phrase(words, hashNumber, numWords - i) == Phrase(words, Number(hash, 256), numWords)
    {
      var remainder := hashNumber % |words|;
      PhraseStep(words, hashNumber, numWords - i, phrase);
      hashNumber := hashNumber / |words|;
      phrase := phrase + [words[remainder]];
    }
    assert phrase + [] == phrase;
    r := Ok(Join(phrase, "-"));
  }

  // ---------------------------------------------------------------- entropy

  lemma {:induction false} PowBelowBase(n: nat, j: nat)
    requires n >= 2 && Pow(n, j) < n
    ensures j == 0
  {
    if j > 0 {
      PowPositive(n, j - 1);
      MulMonotone(1, Pow(n, j - 1), n);
    }
  }

  lemma {:induction false} MulAssociates(a: int, b: int, c: int)
    ensures a * b * c == a * (c * b)
  {
  }

  lemma {:induction false} PowAdd(n: nat, a: nat, b: nat)
    ensures Pow(n, a + b) == Pow(n, a) * Pow(n, b)
    decreases a
  {
    if a > 0 {
      PowAdd(n, a - 1, b);
      MulAssociates(n, Pow(n, b), Pow(n, a - 1));
    }
  }

  /** The bounds are 64 bits, and four bits for each byte of the hash. */
  lemma {:induction false} EntropyBits()
    ensures TWO_64 == Pow(2, 64) && TWO_64 * TWO_64 == Pow(2, 4 * HASH_LENGTH) && HASH_LENGTH == 32
  {
    assert Pow(2, 4) == 16;
    PowAdd(2, 4, 4);
    PowAdd(2, 8, 8);
    PowAdd(2, 16, 16);
    PowAdd(2, 32, 32);
    PowAdd(2, 64, 64);
  }

  /** The entropy check refuses exactly the lists of more than 2 to the 128 words. */
  lemma {:induction false} EntropyRefusedIff(n: nat)
    requires n >= 2
    ensures EntropyRefused(n) <==> n > TWO_64 * TWO_64
  {
    var k := NumWords(n);
    assert Pow(n, k) == n * Pow(n, k - 1);
    if n <= TWO_64 {
      MulMonotone(n, TWO_64, Pow(n, k - 1));
    } else {
      PowBelowBase(n, k - 1);
    }
  }

  /** The real list of 7776 words gives five words and is never refused. */
  lemma {:induction false} RealListFiveWords()
    ensures NumWords(7776) == 5 && !EntropyRefused(7776)
  {
    assert Pow(7776, 1) == 7776 * Pow(7776, 0) == 7776;
    assert Pow(7776, 2) == 7776 * Pow(7776, 1) == 60466176;
    assert Pow(7776, 3) == 7776 * Pow(7776, 2) == 470184984576;
    assert Pow(7776, 4) == 7776 * Pow(7776, 3) == 3656158440062976;
    assert Pow(7776, 5) == 7776 * Pow(7776, 4) == 28430288029929701376;
    EntropyRefusedIff(7776);
  }

  // ---------------------------------------------------------------- equal phrases

  lemma {:induction false} Regroup(p: nat, m: nat, r: nat, n: nat, d: nat)
    ensures (p * m + r) * n + d == p * (n * m) + (r * n + d)
  {
    MulDistributes(p * m, r, n);
    MulAssociates(p, m, n);
  }

  lemma {:induction false} DigitBound(high: nat, d: nat, n: nat, bound: nat)
    requires high < bound && d < n
    ensures high * n + d < n * bound
  {
    MulMonotone(high + 1, bound, n);
    MulDistributes(high, 1, n);
  }

  lemma {:induction false} ResidueParts(x: nat, n: nat, m: nat, q: nat, d: nat, p: nat, r: nat)
    requires x == q * n + d && d < n && q == p * m + r && r < m && n * m > 0
    ensures x % (n * m) == r * n + d
  {
    Regroup(p, m, r, n, d);
    DigitBound(r, d, n, m);
    DivMod(p, r * n + d, n * m);
  }

  /** The lowest digit and the rest determine a residue. */
  lemma {:induction false} ResidueDigits(x: nat, n: nat, m: nat)
    requires n > 0 && m > 0
    ensures n * m > 0
    ensures x % (n * m) == (x / n % m) * n + x % n
  {
    MulMonotone(1, n, m);
    ResidueParts(x, n, m, x / n, x % n, x / n / m, x / n % m);
  }

  /** Phrases agree exactly when the numbers agree modulo the number of phrases. */
  lemma {:induction false} PhraseEqualIff(words: seq<string>, x: nat, y: nat, k: nat)
    requires |words| > 0 && DistinctWords(words)
    ensures Pow(|words|, k) > 0
    ensures Phrase(words, x, k) == Phrase(words, y, k) <==> x % Pow(|words|, k) == y % Pow(|words|, k)
    decreases k
  {
    var n := |words|;
    PowPositive(n, k);
    if k > 0 {
      var m := Pow(n, k - 1);
      PhraseEqualIff(words, x / n, y / n, k - 1);
      ResidueDigits(x, n, m);
      ResidueDigits(y, n, m);
      assert words[x % n] == words[y % n] <==> x % n == y % n;
      var px, py := Phrase(words, x, k), Phrase(words, y, k);
      assert px[0] == words[x % n] && py[0] == words[y % n];
      assert px[1..] == Phrase(words, x / n, k - 1) && py[1..] == Phrase(words, y / n, k - 1);
      assert px == [px[0]] + px[1..] && py == [py[0]] + py[1..];
      if x % Pow(n, k) == y % Pow(n, k) {
        Quotient(x / n % m, x % n, y / n % m, y % n, n);
      }
    }
  }

  lemma {:induction false} PhraseListed(words: seq<string>, x: nat, k: nat)
    requires |words| > 0
    ensures Listed(words, Phrase(words, x, k))
    decreases k
  {
    if k > 0 {
      PhraseListed(words, x / |words|, k - 1);
    }
  }

  lemma {:induction false} FirstPiecesGiveDistinctWords(words: seq<string>)
    requires FirstPiecesDistinct(words)
    ensures DistinctWords(words)
  {
    forall i, j | 0 <= i < j < |words| ensures words[i] != words[j] {
      assert Pieces(words[i])[0] != Pieces(words[j])[0];
    }
  }

  /** Two hashes give the same fingerprint text exactly when they agree modulo the number of phrases. */
  lemma {:induction false} FingerprintEqualIff(words: seq<string>, g: seq<byte>, h: seq<byte>)
    requires |words| >= 2 && FirstPiecesDistinct(words)
    ensures var k := NumWords(|words|);
            && Pow(|words|, k) > 0
            && (Join(Phrase(words, Number(g, 256), k), "-") == Join(Phrase(words, Number(h, 256), k), "-") <==>
                Number(g, 256) % Pow(|words|, k) == Number(h, 256) % Pow(|words|, k))
  {
    var k := NumWords(|words|);
    var x, y := Number(g, 256), Number(h, 256);
    var us, vs := Phrase(words, x, k), Phrase(words, y, k);
    FirstPiecesGiveDistinctWords(words);
    PhraseEqualIff(words, x, y, k);
    PhraseListed(words, x, k);
    PhraseListed(words, y, k);
    if Join(us, "-") == Join(vs, "-") {
      JoinInjective(words, us, vs);
    }
  }

  // ---------------------------------------------------------------- uniformity

  /** The numbers below `bound` that give the phrase `ws`. */
  ghost function Preimages(words: seq<string>, ws: seq<string>, bound: nat): set<nat>
    requires |words| > 0
  {
    set x: nat | x < bound && Phrase(words, x, |ws|) == ws
  }

  ghost function Residues(m: nat, r: nat, bound: nat): set<nat>
    requires m > 0
  {
    set x: nat | x < bound && x % m == r
  }

  lemma {:induction false} NextParts(b: nat, m: nat, q: nat, s: nat)
    requires b == q * m + s && s < m
    ensures s + 1 < m ==> (b + 1) / m == q && (b + 1) % m == s + 1
    ensures s + 1 >= m ==> (b + 1) / m == q + 1 && (b + 1) % m == 0
  {
    if s + 1 < m {
      DivMod(q, s + 1, m);
    } else {
      MulDistributes(q, 1, m);
      DivMod(q + 1, 0, m);
    }
  }

  lemma {:induction false} NextQuotient(b: nat, m: nat)
    requires m > 0
    ensures b % m + 1 < m ==> (b + 1) / m == b / m && (b + 1) % m == b % m + 1
    ensures b % m + 1 >= m ==> (b + 1) / m == b / m + 1 && (b + 1) % m == 0
  {
    NextParts(b, m, b / m, b % m);
  }

  lemma {:induction false} ResidueCount(m: nat, r: nat, bound: nat)
    requires r < m
    ensures |Residues(m, r, bound)| == bound / m + if r < bound % m then 1 else 0
  {
    if bound == 0 {
      assert Residues(m, r, bound) == {};
      DivMod(0, 0, m);
    } else {
      var b := bound - 1;
      ResidueCount(m, r, b);
      NextQuotient(b, m);
      assert Residues(m, r, bound) == Residues(m, r, b) + if b % m == r then {b} else {};
    }
  }

  /** Every sequence of list words is the phrase of a number below the number of phrases. */
  lemma {:induction false} PhraseSurjective(words: seq<string>, ws: seq<string>) returns (x: nat)
    requires |words| > 0 && Listed(words, ws)
    ensures x < Pow(|words|, |ws|) && Phrase(words, x, |ws|) == ws
  {
    if ws == [] {
      x := 0;
    } else {
      assert ws[0] in words;
      var d :| 0 <= d < |words| && words[d] == ws[0];
      var high := PhraseSurjective(words, ws[1..]);
      x := high * |words| + d;
      DivMod(high, d, |words|);
      DigitBound(high, d, |words|, Pow(|words|, |ws| - 1));
      assert ws == [ws[0]] + ws[1..];
    }
  }

  lemma {:induction false} PreimageCount(words: seq<string>, ws: seq<string>, bound: nat)
    requires |words| > 0 && DistinctWords(words) && Listed(words, ws)
    ensures var m := Pow(|words|, |ws|);
            m > 0 && bound / m <= |Preimages(words, ws, bound)| <= bound / m + 1
  {
    var m := Pow(|words|, |ws|);
    PowPositive(|words|, |ws|);
    var r := PhraseSurjective(words, ws);
    DivMod(0, r, m);
    forall x: nat ensures Phrase(words, x, |ws|) == ws <==> x % m == r {
      PhraseEqualIff(words, x, r, |ws|);
    }
    assert Preimages(words, ws, bound) == Residues(m, r, bound);
    ResidueCount(m, r, bound);
  }

  /** All hashes of `n` bytes. */
  ghost function Hashes(n: nat): set<seq<byte>> {
    if n == 0 then {[]} else set h, b: byte | h in Hashes(n - 1) && 0 <= b < 256 :: h + [b]
  }

  lemma {:induction false} HashesExact(n: nat, h: seq<byte>)
    ensures h in Hashes(n) <==> |h| == n
  {
    if n > 0 && h != [] {
      HashesExact(n - 1, h[..|h| - 1]);
      assert h == h[..|h| - 1] + [h[|h| - 1]];
    }
    if n > 0 && h in Hashes(n) {
      var g, b: byte :| g in Hashes(n - 1) && h == g + [b];
      HashesExact(n - 1, g);
    }
  }

  /** The hashes of `n` bytes that give the phrase `ws`. */
  ghost function HashPreimages(words: seq<string>, ws: seq<string>, n: nat): set<seq<byte>>
    requires |words| > 0
  {
    set h | h in Hashes(n) && Phrase(words, Number(h, 256), |ws|) == ws
  }

  lemma {:induction false} SameSize(hs: set<seq<byte>>, xs: set<nat>, n: nat)
    requires forall h :: h in hs ==> |h| == n && Number(h, 256) in xs
    requires forall x :: x in xs ==> exists h :: h in hs && Number(h, 256) == x
    ensures |hs| == |xs|
    decreases hs
  {
    if hs != {} {
      var h :| h in hs;
      var x := Number(h, 256);
      forall g | g in hs && g != h ensures Number(g, 256) in xs - {x} {
        if Number(g, 256) == x {
          NumberInjective(g, h, 256);
        }
      }
      forall y | y in xs - {x} ensures exists g :: g in hs - {h} && Number(g, 256) == y {
        var g :| g in hs && Number(g, 256) == y;
        assert g in hs - {h};
      }
      SameSize(hs - {h}, xs - {x}, n);
    } else {
      assert xs == {};
    }
  }

  /** Hashes are the numbers below the number of hashes. */
  lemma {:induction false} HashPreimageCount(words: seq<string>, ws: seq<string>, n: nat)
    requires |words| > 0
    ensures |HashPreimages(words, ws, n)| == |Preimages(words, ws, Pow(256, n))|
  {
    var hs, xs := HashPreimages(words, ws, n), Preimages(words, ws, Pow(256, n));
    forall h | h in hs ensures |h| == n && Number(h, 256) in xs {
      HashesExact(n, h);
      NumberBound(h, 256);
    }
    forall x | x in xs ensures exists h :: h in hs && Number(h, 256) == x {
      var d := NumberSurjective(x, 256, n);
      var h: seq<byte> := d;
      HashesExact(n, h);
      assert h in hs;
    }
    SameSize(hs, xs, n);
  }

  /** Over all 32-byte hashes, any two phrases of one length are hit equally often, up to one. */
  lemma {:induction false} PhrasesUniform(words: seq<string>, us: seq<string>, vs: seq<string>)
    requires |words| > 0 && DistinctWords(words) && Listed(words, us) && Listed(words, vs) && |us| == |vs|
    ensures forall h :: h in Hashes(HASH_LENGTH) <==> |h| == HASH_LENGTH
    ensures |HashPreimages(words, us, HASH_LENGTH)| <= |HashPreimages(words, vs, HASH_LENGTH)| + 1
    ensures |HashPreimages(words, vs, HASH_LENGTH)| <= |HashPreimages(words, us, HASH_LENGTH)| + 1
  {
    forall h ensures h in Hashes(HASH_LENGTH) <==> |h| == HASH_LENGTH {
      HashesExact(HASH_LENGTH, h);
    }
    HashPreimageCount(words, us, HASH_LENGTH);
    HashPreimageCount(words, vs, HASH_LENGTH);
    PreimageCount(words, us, Pow(256, HASH_LENGTH));
    PreimageCount(words, vs, Pow(256, HASH_LENGTH));
  }

  /** Some hash gives each sequence of list words, as long as there are not more sequences than hashes. */
  lemma {:induction false} PhraseReached(words: seq<string>, ws: seq<string>) returns (hash: seq<byte>)
    requires |words| > 0 && Listed(words, ws) && Pow(|words|, |ws|) <= Pow(256, HASH_LENGTH)
    ensures |hash| == HASH_LENGTH && Phrase(words, Number(hash, 256), |ws|) == ws
  {
    var x := PhraseSurjective(words, ws);
    var d := NumberSurjective(x, 256, HASH_LENGTH);
    hash := d;
  }
}
