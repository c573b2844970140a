/** The forms in which a job (a 32-byte pre-PoW hash and a 64-bit timestamp) is sent to miners. */
module JobEncoding {
  import opened Options
  import opened ByteOrder
  import opened Hex

  /** IceRiver: the hash in hex, then the timestamp in little-endian hex. */
  function IceRiverJobParams(hash: Bytes, timestamp: nat): string {
    HexBytes(hash) + HexBytes(ToLE(timestamp, 8))
  }

  function Word(header: Bytes, i: nat): Bytes
    requires 8 * i + 8 <= |header|
  {
    header[8 * i..8 * i + 8]
  }

  /** BzMiner: four big-endian words of the hash and the byte-swapped timestamp, in hex. Formatting
      panics on fewer than four words. */
  method LargeJobParams(header: Bytes, timestamp: nat) returns (params: string)
    requires |header| >= 32
    ensures params == IceRiverJobParams(header[..32], timestamp)
  {
    var ids: seq<nat> := [];
    for i := 0 to 4
      invariant |ids| == i
      invariant forall k | 0 <= k < i :: ids[k] == FromBE(Word(header, k))
    {
      var offset := i * 8;
      if offset + 8 <= |header| {
        ids := ids + [FromBE(header[offset..offset + 8])];
      }
    }
    var timestampBE := ToBE(timestamp, 8);
    ids := ids + [FromLE(timestampBE)];
    params := HexFixed(ids[0], 16) + HexFixed(ids[1], 16) + HexFixed(ids[2], 16) + HexFixed(ids[3], 16) + HexFixed(ids[4], 16);
    FormattedWords(header, ids, timestamp);
  }

  lemma FormattedWords(header: Bytes, ids: seq<nat>, timestamp: nat)
    requires |header| >= 32 && |ids| == 5
    requires forall k | 0 <= k < 4 :: ids[k] == FromBE(Word(header, k))
    requires ids[4] == FromLE(ToBE(timestamp, 8))
    ensures HexFixed(ids[0], 16) + HexFixed(ids[1], 16) + HexFixed(ids[2], 16) + HexFixed(ids[3], 16) + HexFixed(ids[4], 16)
            == IceRiverJobParams(header[..32], timestamp)
  {
    WordText(header, 0);
    WordText(header, 1);
    WordText(header, 2);
    WordText(header, 3);
    HexOfWord(ToLE(timestamp, 8));
    FourWords(header[..32]);
  }

  lemma WordText(header: Bytes, k: nat)
    requires |header| >= 32 && k < 4
    ensures HexFixed(FromBE(Word(header, k)), 16) == HexBytes(Word(header[..32], k))
  {
    assert Word(header[..32], k) == Word(header, k);
    HexOfWord(Word(header, k));
  }

  lemma FourWords(hash: Bytes)
    requires |hash| == 32
    ensures HexBytes(Word(hash, 0)) + HexBytes(Word(hash, 1)) + HexBytes(Word(hash, 2)) + HexBytes(Word(hash, 3)) == HexBytes(hash)
  {
    ThreeCuts(hash);
    HexBytesConcat(Word(hash, 0), Word(hash, 1));
    HexBytesConcat(hash[..16], Word(hash, 2));
    HexBytesConcat(hash[..24], Word(hash, 3));
  }

  lemma ThreeCuts(hash: Bytes)
    requires |hash| == 32
    ensures hash[..16] == Word(hash, 0) + Word(hash, 1)
    ensures hash[..24] == hash[..16] + Word(hash, 2)
    ensures hash == hash[..24] + Word(hash, 3)
  {
  }

  /** Legacy: the hash as four little-endian words; short input gives fewer. */
  method JobHeader(header: Bytes) returns (ids: seq<nat>)
    ensures |ids| == if |header| >= 32 then 4 else |header| / 8
    ensures forall k | 0 <= k < |ids| :: ids[k] == FromLE(Word(header, k))
  {
    ids := [];
    for i := 0 to 4
      invariant |ids| == if 8 * i <= |header| then i else |header| / 8
      invariant forall k | 0 <= k < |ids| :: ids[k] == FromLE(Word(header, k))
    {
      var offset := i * 8;
      if offset + 8 <= |header| {
        ids := ids + [FromLE(header[offset..offset + 8])];
      }
    }
  }

  /** What a miner reads back from the 80 characters. */
  function Decode(params: string): Option<(Bytes, nat)> {
    if |params| != 80 then None
    else
      match (UnhexBytes(params[..64]), UnhexBytes(params[64..]))
      case (Some(hash), Some(ts)) => Some((hash, FromLE(ts)))
      case _ => None
  }

  /** Both string forms are 80 characters and decode to the hash and the timestamp. */
  lemma JobParamsRoundTrip(hash: Bytes, timestamp: nat)
    requires |hash| == 32 && timestamp < Pow16(16)
    ensures |IceRiverJobParams(hash, timestamp)| == 80
    ensures Decode(IceRiverJobParams(hash, timestamp)) == Some((hash, timestamp))
  {
    DecodeParts(hash, ToLE(timestamp, 8));
    LERoundTrip(timestamp);
  }

  lemma DecodeParts(hash: Bytes, ts: Bytes)
    requires |hash| == 32 && |ts| == 8
    ensures Decode(HexBytes(hash) + HexBytes(ts)) == Some((hash, FromLE(ts)))
  {
    var a, b := HexBytes(hash), HexBytes(ts);
    assert (a + b)[..64] == a && (a + b)[64..] == b;
    HexBytesRoundTrip(hash);
    HexBytesRoundTrip(ts);
  }

  lemma LERoundTrip(timestamp: nat)
    requires timestamp < Pow16(16)
    ensures FromLE(ToLE(timestamp, 8)) == timestamp
  {
    ReverseTwice(ToBE(timestamp, 8));
    BERoundTrip(timestamp, 8);
  }

  lemma WordDetermined(a: Bytes, b: Bytes)
    requires |a| == |b| && FromLE(a) == FromLE(b)
    ensures a == b
  {
    FromBEInverse(Reverse(a));
    FromBEInverse(Reverse(b));
    ReverseTwice(a);
    ReverseTwice(b);
  }

  /** The legacy array determines the hash. */
  lemma LegacyWordsDetermineHash(a: Bytes, b: Bytes)
    requires |a| == |b| == 32
    requires forall k: nat | k < 4 :: FromLE(Word(a, k)) == FromLE(Word(b, k))
    ensures a == b
  {
    forall k: nat | k < 4
      ensures Word(a, k) == Word(b, k)
    {
      WordDetermined(Word(a, k), Word(b, k));
    }
    ThreeCuts(a);
    ThreeCuts(b);
  }

  /** The 80 characters: digits of the hash's bytes in order, then of the timestamp's bytes from the lowest. */
  lemma JobParamsCharacters(hash: Bytes, timestamp: nat, i: nat, k: nat)
    requires |hash| == 32 && i < 32 && k < 8
    ensures |IceRiverJobParams(hash, timestamp)| == 80
    ensures var s := IceRiverJobParams(hash, timestamp);
            s[2 * i] == DIGITS[hash[i] / 16] && s[2 * i + 1] == DIGITS[hash[i] % 16]
    ensures var s, b := IceRiverJobParams(hash, timestamp), timestamp / Pow16(2 * k) % 256;
            s[64 + 2 * k] == DIGITS[b / 16] && s[64 + 2 * k + 1] == DIGITS[b % 16]
  {
    var ts := ToLE(timestamp, 8);
    HexBytesAt(hash, i);
    BytesAt(timestamp, 8, k);
    HexBytesAt(ts, k);
    PartsAt(HexBytes(hash), HexBytes(ts), 2 * i, 2 * k);
  }

  lemma PartsAt(a: string, b: string, i: nat, k: nat)
    requires |a| == 64 && |b| == 16 && i < 63 && k < 15
    ensures (a + b)[i] == a[i] && (a + b)[i + 1] == a[i + 1]
    ensures (a + b)[64 + k] == b[k] && (a + b)[64 + k + 1] == b[k + 1]
  {
  }

  /** Byte `8 * k + i` of the hash is the coefficient of 256^i of legacy word `k`. */
  lemma LegacyWordBytes(header: Bytes, k: nat, i: nat)
    requires 8 * k + 8 <= |header| && i < 8
    ensures FromLE(Word(header, k)) / Pow16(2 * i) % 256 == header[8 * k + i]
  {
    WordBytes(Word(header, k), i);
  }
}
