/**
 * The stream primitives used by the IdentifiedDataSerializable classes, as
 * tokens, and the attribute-map encoding they share: an int count followed by
 * one (name, data) pair per entry.
 */
module Wire {
  import opened Wrappers

  /** One primitive written to an ObjectDataOutput (and read back from an ObjectDataInput). */
  datatype Token =
    | IntTok(n: int)              // writeInt / readInt
    | BoolTok(b: bool)            // writeBoolean / readBoolean
    | StrTok(s: string)           // writeString / readString of an attribute name
    | UtfTok(u: Option<string>)   // writeUTF / readUTF, which carry null
    | DataTok(d: Option<Blob>)    // IOUtil.writeData / readData, which carry null

  /** What a reader produced, the tokens it left unread, and whether the input was well formed. */
  datatype Decoded<T> = Decoded(value: T, rest: seq<Token>, ok: bool)

  /** ks lists each element of keys exactly once: one order in which a map's entries can be iterated. */
  ghost predicate Enumerates(ks: seq<string>, keys: set<string>) {
    && (forall i, j | 0 <= i < j < |ks| :: ks[i] != ks[j])
    && (forall k | k in ks :: k in keys)
    && (forall k | k in keys :: k in ks)
  }

  /** The (name, data) pairs of m, in the iteration order ks. */
  function EncodePairs(m: map<string, Option<Blob>>, ks: seq<string>): (out: seq<Token>)
    requires forall k | k in ks :: k in m
    ensures |out| == 2 * |ks|
  {
    if ks == [] then [] else [StrTok(ks[0]), DataTok(m[ks[0]])] + EncodePairs(m, ks[1..])
  }

  /** Writing one more pair appends its two tokens. */
  lemma {:induction false} EncodePairsAppend(m: map<string, Option<Blob>>, ks: seq<string>, k: string)
    requires forall x | x in ks :: x in m
    requires k in m
    ensures EncodePairs(m, ks + [k]) == EncodePairs(m, ks) + [StrTok(k), DataTok(m[k])]
    decreases |ks|
  {
    if ks != [] {
      assert (ks + [k])[1..] == ks[1..] + [k];
      EncodePairsAppend(m, ks[1..], k);
    }
  }

  /** The whole encoding of m: its size, then its pairs in the order ks. */
  function EncodeMap(m: map<string, Option<Blob>>, ks: seq<string>): seq<Token>
    requires forall k | k in ks :: k in m
  {
    [IntTok(|m|)] + EncodePairs(m, ks)
  }

  /** The entries of m whose keys occur in ks. */
  function Restrict(m: map<string, Option<Blob>>, ks: seq<string>): (r: map<string, Option<Blob>>)
    requires forall k | k in ks :: k in m
  {
    map k | k in ks :: m[k]
  }

  /**
   * Reads n pairs from the front of inp, putting each into acc in turn (a later
   * pair with the same name overwrites an earlier one). A negative n reads
   * nothing, as a `for (i = 0; i < n; i++)` loop does. A pair that is not a
   * name followed by a data item stops the reading with ok == false and the
   * pairs read so far kept.
   */
  function ReadPairsInto(acc: map<string, Option<Blob>>, inp: seq<Token>, n: int): Decoded<map<string, Option<Blob>>>
    decreases if n < 0 then 0 else n
  {
    if n <= 0 then Decoded(acc, inp, true)
    else if |inp| >= 2 && inp[0].StrTok? && inp[1].DataTok? then
      ReadPairsInto(acc[inp[0].s := inp[1].d], inp[2..], n - 1)
    else Decoded(acc, inp, false)
  }

  /**
   * Reads a count and then that many pairs into a fresh map. A negative count
   * is an error once it has been read: the map is sized by the count, which
   * Java refuses with an IllegalArgumentException.
   */
  function ReadMap(inp: seq<Token>): (r: Decoded<map<string, Option<Blob>>>)
    ensures |inp| >= 1 && inp[0].IntTok? && inp[0].n < 0 ==> !r.ok && r.rest == inp[1..]
  {
    if |inp| >= 1 && inp[0].IntTok? then
      if inp[0].n < 0 then Decoded(map[], inp[1..], false)
      else ReadPairsInto(map[], inp[1..], inp[0].n)
    else Decoded(map[], inp, false)
  }

  /** A list without repetitions has as many distinct elements as it is long. */
  lemma {:induction false} DistinctCount(ks: seq<string>)
    requires forall i, j | 0 <= i < j < |ks| :: ks[i] != ks[j]
    ensures |set k | k in ks| == |ks|
  {
    if ks != [] {
      DistinctCount(ks[1..]);
      assert (set k | k in ks) == {ks[0]} + (set k | k in ks[1..]);
      assert ks[0] !in (set k | k in ks[1..]);
    }
  }

  /** An enumeration of a map's keys is as long as the map is large. */
  lemma EnumerationLength(m: map<string, Option<Blob>>, ks: seq<string>)
    requires Enumerates(ks, m.Keys)
    ensures |ks| == |m|
  {
    DistinctCount(ks);
    assert (set k | k in ks) == m.Keys;
  }

  /** Reading back the pairs written for ks puts exactly the entries of m named in ks. */
  lemma {:induction false} ReadEncodedPairs(acc: map<string, Option<Blob>>, m: map<string, Option<Blob>>, ks: seq<string>, rest: seq<Token>)
    requires forall k | k in ks :: k in m
    ensures ReadPairsInto(acc, EncodePairs(m, ks) + rest, |ks|) == Decoded(acc + Restrict(m, ks), rest, true)
    decreases |ks|
  {
    if ks == [] {
      assert Restrict(m, ks) == map[];
      assert acc + map[] == acc;
    } else {
      var k0 := ks[0];
      var inp := EncodePairs(m, ks) + rest;
      assert inp == [StrTok(k0), DataTok(m[k0])] + (EncodePairs(m, ks[1..]) + rest);
      assert inp[2..] == EncodePairs(m, ks[1..]) + rest;
      ReadEncodedPairs(acc[k0 := m[k0]], m, ks[1..], rest);
      RestrictCons(acc, m, ks);
    }
  }

  /** Putting the first restricted entry, then the rest, is putting all of them. */
  lemma RestrictCons(acc: map<string, Option<Blob>>, m: map<string, Option<Blob>>, ks: seq<string>)
    requires ks != []
    requires forall k | k in ks :: k in m
    ensures acc[ks[0] := m[ks[0]]] + Restrict(m, ks[1..]) == acc + Restrict(m, ks)
  {
    assert forall k :: k in ks <==> k == ks[0] || k in ks[1..];
  }

  /** Decoding an encoding of m gives m back and consumes exactly the encoding. */
  lemma RoundTrip(m: map<string, Option<Blob>>, ks: seq<string>, rest: seq<Token>)
    requires Enumerates(ks, m.Keys)
    ensures ReadMap(EncodeMap(m, ks) + rest) == Decoded(m, rest, true)
  {
    EnumerationLength(m, ks);
    var inp := EncodeMap(m, ks) + rest;
    assert inp[1..] == EncodePairs(m, ks) + rest;
    ReadEncodedPairs(map[], m, ks, rest);
    assert map[] + Restrict(m, ks) == m;
  }
}
