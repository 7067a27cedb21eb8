/** Streaming base64: chunks of any size encode to the same text as the whole input. */
module ChunkedEncoding {
  import opened Wrappers
  import opened Base64

  /** The word size of the build target. */
  datatype Target = Bits32 | Bits64

  function UsizeMax(t: Target): nat {
    match t
    case Bits32 => 0xFFFF_FFFF
    case Bits64 => 0xFFFF_FFFF_FFFF_FFFF
  }

  /** The longest input that one call of the underlying encoder accepts. */
  function LengthLimit(t: Target): nat {
    UsizeMax(t) / 512
  }

  /** The text of the whole groups in `b`, without padding. */
  function GroupText(a: Alphabet, b: seq<byte>): string {
    Symbols(a, Sextets(b))
  }

  /** How much of an input fills whole groups. */
  function Aligned(n: nat): nat {
    n - n % 3
  }

  /** An encoder that writes whole groups at once and carries what is left over. */
  class Encoder {
    const target: Target
    const encoding: Encoding
    var output: string
    var carry: seq<byte>
    ghost var fed: seq<byte>

    ghost predicate Valid()
      reads this
    {
      && carry == fed[Aligned(|fed|)..]
      && output == GroupText(encoding.alphabet, fed[..Aligned(|fed|)])
    }

    constructor (t: Target, e: Encoding)
      ensures Valid() && target == t && encoding == e && fed == []
    {
      target, encoding := t, e;
      output, carry, fed := "", [], [];
      new;
      NothingFed(e.alphabet);
    }

    /** One call of the underlying encoder, which refuses inputs over its limit. */
    method EncodeAppend(input: seq<byte>)
      requires |input| <= LengthLimit(target)
      modifies this`output
      ensures output == old(output) + Encode(encoding, input)
    {
      output := output + Encode(encoding, input);
    }

    /** Feeds a chunk: completes the carried group first, then all whole groups, then carries the rest. */
    method Append(chunk: seq<byte>)
      requires Valid() && |chunk| <= LengthLimit(target)
      modifies this
      ensures Valid() && fed == old(fed) + chunk
    {
      var input := chunk;
      ghost var done := fed;
      if carry != [] {
        var n := if 3 - |carry| <= |input| then 3 - |carry| else |input|;
        var block := carry + input[..n];
        done := done + input[..n];
        if |block| < 3 {
          carry := block;
          assert input[..n] == input;
          fed := fed + chunk;
          ShortFill(old(fed), chunk);
          return;
        }
        EncodeAppend(block);
        GroupFill(encoding, old(fed), input[..n]);
        input := input[n..];
        assert chunk == chunk[..n] + chunk[n..];
      } else {
        assert fed[..Aligned(|fed|)] == fed;
      }
      assert |done| % 3 == 0 && output == GroupText(encoding.alphabet, done);
      fed := fed + chunk;
      assert fed == done + input;
      var whole := Aligned(|input|);
      WholeGroups(encoding, done, input);
      EncodeAppend(input[..whole]);
      carry := input[whole..];
    }

    /** Writes the carried bytes as the final group. */
    method Finalize()
      requires Valid()
      modifies this
      ensures output == Encode(encoding, fed) && fed == old(fed)
    {
      FinalGroup(encoding, fed);
      if carry != [] {
        EncodeAppend(carry);
        carry := [];
      }
    }
  }

  lemma {:induction false} NothingFed(a: Alphabet)
    ensures Aligned(0) == 0 && GroupText(a, []) == ""
  {
  }

  lemma {:induction false} GroupTextConcat(a: Alphabet, b: seq<byte>, c: seq<byte>)
    requires |b| % 3 == 0
    ensures GroupText(a, b + c) == GroupText(a, b) + GroupText(a, c)
  {
    SextetsConcat(b, c);
  }

  lemma {:induction false} EncodeWhole(e: Encoding, b: seq<byte>)
    requires |b| % 3 == 0
    ensures Encode(e, b) == GroupText(e.alphabet, b)
  {
  }

  /** A chunk too short to complete the carried group only joins the carry. */
  lemma {:induction false} ShortFill(fed: seq<byte>, chunk: seq<byte>)
    requires |fed| % 3 + |chunk| < 3
    ensures var all := fed + chunk;
            && Aligned(|all|) == Aligned(|fed|)
            && all[..Aligned(|all|)] == fed[..Aligned(|fed|)]
            && all[Aligned(|all|)..] == fed[Aligned(|fed|)..] + chunk
  {
  }

  /** Completing the carried group extends the written text by that group. */
  lemma {:induction false} GroupFill(e: Encoding, fed: seq<byte>, fill: seq<byte>)
    requires |fed| % 3 + |fill| == 3
    ensures GroupText(e.alphabet, fed[..Aligned(|fed|)]) + Encode(e, fed[Aligned(|fed|)..] + fill)
         == GroupText(e.alphabet, fed + fill)
  {
    var m := Aligned(|fed|);
    assert fed + fill == fed[..m] + (fed[m..] + fill);
    GroupTextConcat(e.alphabet, fed[..m], fed[m..] + fill);
    EncodeWhole(e, fed[m..] + fill);
  }

  /** After whole groups, the whole groups of the next input follow on. */
  lemma {:induction false} WholeGroups(e: Encoding, done: seq<byte>, input: seq<byte>)
    requires |done| % 3 == 0
    ensures var whole := Aligned(|input|);
            var all := done + input;
            && all[Aligned(|all|)..] == input[whole..]
            && GroupText(e.alphabet, all[..Aligned(|all|)])
            == GroupText(e.alphabet, done) + Encode(e, input[..whole])
  {
    var whole := Aligned(|input|);
    var all := done + input;
    assert Aligned(|all|) == |done| + whole;
    assert all[..Aligned(|all|)] == done + input[..whole];
    GroupTextConcat(e.alphabet, done, input[..whole]);
    EncodeWhole(e, input[..whole]);
  }

  /** The whole encoding is the text of the whole groups followed by the final group. */
  lemma {:induction false} FinalGroup(e: Encoding, b: seq<byte>)
    ensures var m := Aligned(|b|);
            Encode(e, b) == GroupText(e.alphabet, b[..m]) + Encode(e, b[m..])
  {
    var m := Aligned(|b|);
    assert b == b[..m] + b[m..];
    GroupTextConcat(e.alphabet, b[..m], b[m..]);
  }

  /** The capacity reserved for the output is never exceeded. */
  lemma {:induction false} OutputFits(e: Encoding, b: seq<byte>)
    ensures |Encode(e, b)| <= |b| / 3 * 4 + 4
    ensures e.padded ==> |Encode(e, b)| == (|b| + 2) / 3 * 4
    ensures !e.padded ==> |Encode(e, b)| == (|b| * 4 + 2) / 3
  {
    SextetsLength(b);
  }

  /** Encodes `data` in chunks of at most `maxSafe` bytes. */
  method ChunkedEncodeWithLimit(t: Target, e: Encoding, data: seq<byte>, maxSafe: nat) returns (output: string)
    requires 1 <= maxSafe && (maxSafe <= LengthLimit(t) || |data| <= LengthLimit(t))
    ensures output == Encode(e, data)
    ensures |output| <= |data| / 3 * 4 + 4
  {
    OutputFits(e, data);
    var enc := new Encoder(t, e);
    var i := 0;
    while i < |data|
      invariant 0 <= i <= |data|
      invariant enc.Valid() && enc.fed == data[..i]
      invariant fresh(enc) && enc.encoding == e && enc.target == t
    {
      var next := if i + maxSafe <= |data| then i + maxSafe else |data|;
      assert data[..next] == data[..i] + data[i..next];
      enc.Append(data[i..next]);
      i := next;
    }
    assert data[..i] == data;
    enc.Finalize();
    output := enc.output;
  }

  method ChunkedEncode(t: Target, e: Encoding, data: seq<byte>) returns (output: string)
    ensures output == Encode(e, data)
  {
    output := ChunkedEncodeWithLimit(t, e, data, UsizeMax(t) / 512);
  }

  /** The limit is about 8 MB where `usize` has 32 bits. */
  lemma {:induction false} LimitValues()
    ensures LengthLimit(Bits32) == 8388607 && LengthLimit(Bits64) == 36028797018963967
  {
  }
}
