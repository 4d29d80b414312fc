/** Length-prefixed framing of two byte strings and of a block (src/util.rs). */
module Framing {
  import opened Prelude
  import opened Digits

  const MARK := 8

  /** What `combine` lays out: eight big-endian length bytes, then both parts. */
  function Combined(first: Bytes, second: Bytes): Bytes {
    BigEndian(|first| % U64_BOUND, MARK) + first + second
  }

  method Combine(first: Bytes, second: Bytes) returns (encode: Bytes)
    ensures encode == Combined(first, second)
  {
    var lenMark := BigEndian(|first| % U64_BOUND, MARK);
    encode := [];
    encode := encode + lenMark;
    encode := encode + first;
    encode := encode + second;
  }

  function BlockFrame(height: u64, block: Bytes, hash: Bytes): Bytes {
    BigEndian(height, MARK) + Combined(hash, block)
  }

  method EncodeBlock(height: u64, block: Bytes, hash: Bytes) returns (encode: Bytes)
    ensures encode == BlockFrame(height, block, hash)
  {
    encode := [];
    encode := encode + BigEndian(height, MARK);
    var combine := Combine(hash, block);
    encode := encode + combine;
  }

  /** `first_len + 8` overflows for the eight largest marks, which is a panic. */
  function Extract(encode: Bytes): Result<(Bytes, Bytes)> {
    if |encode| < MARK then Failure(DecodeErr)
    else
      var firstLen := BigValue(encode[..MARK]);
      if firstLen + MARK >= U64_BOUND then Failure(Panicked)
      else if |encode| < firstLen + MARK then Failure(DecodeErr)
      else Success((encode[MARK..firstLen + MARK], encode[firstLen + MARK..]))
  }

  /** Height, block bytes and block hash; `split_at(8)` panics on a shorter input. */
  function DecodeBlock(encode: Bytes): Result<(u64, Bytes, Bytes)> {
    if |encode| < MARK then Failure(Panicked)
    else
      var (hash, block) :- Extract(encode[MARK..]);
      PowersOf256();
      BigValueDigits(encode[..MARK]);
      Success((BigValue(encode[..MARK]), block, hash))
  }

  /** Framing is undone exactly for first parts below 2^64 - 8 bytes. */
  lemma ExtractInvertsCombine(a: Bytes, b: Bytes)
    ensures Extract(Combined(a, b)) == Success((a, b)) <==> |a| < U64_BOUND - MARK
  {
    var e := Combined(a, b);
    PowersOf256();
    BigEndianValue(|a| % U64_BOUND, MARK);
    assert e[..MARK] == BigEndian(|a| % U64_BOUND, MARK);
    if |a| < U64_BOUND - MARK {
      assert e[MARK..|a| + MARK] == a;
      assert e[|a| + MARK..] == b;
    } else if Extract(e).Success? {
      assert |Extract(e).value.0| == |a| % U64_BOUND < |a|;
    }
  }

  /** Whatever `extract` accepts re-frames to the same bytes. */
  lemma CombineInvertsExtract(e: Bytes)
    requires Extract(e).Success?
    ensures Combined(Extract(e).value.0, Extract(e).value.1) == e
  {
    var (a, b) := Extract(e).value;
    BigValueDigits(e[..MARK]);
    assert |a| == BigValue(e[..MARK]);
    assert e == e[..MARK] + a + b;
  }

  lemma DecodeInvertsEncodeBlock(height: u64, block: Bytes, hash: Bytes)
    ensures DecodeBlock(BlockFrame(height, block, hash)) == Success((height, block, hash))
            <==> |hash| < U64_BOUND - MARK
  {
    var e := BlockFrame(height, block, hash);
    PowersOf256();
    BigEndianValue(height, MARK);
    assert e[..MARK] == BigEndian(height, MARK);
    assert e[MARK..] == Combined(hash, block);
    ExtractInvertsCombine(hash, block);
  }

  lemma EncodeInvertsDecodeBlock(e: Bytes)
    requires DecodeBlock(e).Success?
    ensures var (height, block, hash) := DecodeBlock(e).value;
            BlockFrame(height, block, hash) == e
  {
    CombineInvertsExtract(e[MARK..]);
    BigValueDigits(e[..MARK]);
    assert e == e[..MARK] + e[MARK..];
  }

  /** Both formats are injective on what they accept. */
  lemma FramingInjective(e: Bytes, f: Bytes)
    ensures Extract(e).Success? && Extract(e) == Extract(f) ==> e == f
    ensures DecodeBlock(e).Success? && DecodeBlock(e) == DecodeBlock(f) ==> e == f
  {
    if Extract(e).Success? && Extract(e) == Extract(f) {
      CombineInvertsExtract(e);
      CombineInvertsExtract(f);
    }
    if DecodeBlock(e).Success? && DecodeBlock(e) == DecodeBlock(f) {
      EncodeInvertsDecodeBlock(e);
      EncodeInvertsDecodeBlock(f);
    }
  }
}
