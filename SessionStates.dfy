/**
 * SessionState: the record stored in the distributed map under a session id,
 * a map from attribute name to serialized value, and its count-prefixed
 * stream format.
 */
module SessionStates {
  import opened Wrappers
  import opened Wire

  /** The stored values as the nullable data items the stream carries. */
  function Lift(m: map<string, Blob>): (r: map<string, Option<Blob>>)
    ensures r.Keys == m.Keys
    ensures forall k | k in m :: r[k] == Some(m[k])
  {
    map k | k in m :: Some(m[k])
  }

  /**
   * Reads n pairs from the front of inp into acc, as readData's loop does. A
   * null data item cannot be held by the model's record and is treated as
   * malformed input.
   */
  function ReadStateInto(acc: map<string, Blob>, inp: seq<Token>, n: int): Decoded<map<string, Blob>>
    decreases if n < 0 then 0 else n
  {
    if n <= 0 then Decoded(acc, inp, true)
    else if |inp| >= 2 && inp[0].StrTok? && inp[1].DataTok? && inp[1].d.Some? then
      ReadStateInto(acc[inp[0].s := inp[1].d.value], inp[2..], n - 1)
    else Decoded(acc, inp, false)
  }

  /** readData on a state holding acc: a count, then that many pairs upserted into acc. */
  function ReadState(acc: map<string, Blob>, inp: seq<Token>): Decoded<map<string, Blob>> {
    if |inp| >= 1 && inp[0].IntTok? then ReadStateInto(acc, inp[1..], inp[0].n)
    else Decoded(acc, inp, false)
  }

  class SessionState {
    var attributes: map<string, Blob>

    constructor ()
      ensures attributes == map[]
    {
      attributes := map[];
    }

    /** Upserts one attribute. */
    method SetAttribute(key: string, value: Blob)
      modifies this
      ensures attributes == old(attributes)[key := value]
      ensures forall k | k != key && k in old(attributes) :: k in attributes && attributes[k] == old(attributes)[k]
    {
      attributes := attributes[key := value];
    }

    /** putAll: the keys of m take m's values, every other key keeps its value. */
    method Set(m: map<string, Blob>)
      modifies this
      ensures attributes.Keys == old(attributes).Keys + m.Keys
      ensures forall k | k in m :: attributes[k] == m[k]
      ensures forall k | k in old(attributes) && k !in m :: attributes[k] == old(attributes)[k]
    {
      attributes := attributes + m;
    }

    /**
     * Writes the size of the map and then one (name, data) pair per
     * attribute, in the map's iteration order (returned as `order`).
     */
    method WriteData() returns (out: seq<Token>, ghost order: seq<string>)
      ensures Enumerates(order, attributes.Keys)
      ensures out == EncodeMap(Lift(attributes), order)
    {
      ghost var lifted := Lift(attributes);
      out := [IntTok(|attributes|)];
      order := [];
      var remaining := attributes.Keys;
      while remaining != {}
        invariant remaining <= attributes.Keys
        invariant forall i, j | 0 <= i < j < |order| :: order[i] != order[j]
        invariant forall k | k in order :: k in attributes && k !in remaining
        invariant forall k | k in attributes :: k in order || k in remaining
        invariant out == [IntTok(|attributes|)] + EncodePairs(lifted, order)
        decreases remaining
      {
        var k :| k in remaining;
        EncodePairsAppend(lifted, order, k);
        assert lifted[k] == Some(attributes[k]);
        out := out + [StrTok(k), DataTok(Some(attributes[k]))];
        order := order + [k];
        remaining := remaining - {k};
      }
      assert |lifted| == |attributes| by {
        assert lifted.Keys == attributes.Keys;
      }
    }

    /**
     * Reads a count and that many pairs, putting each into the current map
     * without clearing it first. On malformed input the pairs read before the
     * fault stay put and ok is false (the source throws IOException).
     */
    method ReadData(inp: seq<Token>) returns (rest: seq<Token>, ok: bool)
      modifies this
      ensures ReadState(old(attributes), inp) == Decoded(attributes, rest, ok)
    {
      if |inp| == 0 || !inp[0].IntTok? {
        return inp, false;
      }
      var attCount := inp[0].n;
      rest := inp[1..];
      var i := 0;
      while i < attCount
        invariant 0 <= i <= (if attCount < 0 then 0 else attCount)
        invariant ReadStateInto(old(attributes), inp[1..], attCount) == ReadStateInto(attributes, rest, attCount - i)
      {
        if |rest| >= 2 && rest[0].StrTok? && rest[1].DataTok? && rest[1].d.Some? {
          attributes := attributes[rest[0].s := rest[1].d.value];
          rest := rest[2..];
          i := i + 1;
        } else {
          return rest, false;
        }
      }
      ok := true;
    }
  }

  /** The entries of m whose keys occur in ks. */
  function Picked(m: map<string, Blob>, ks: seq<string>): map<string, Blob>
    requires forall k | k in ks :: k in m
  {
    map k | k in ks :: m[k]
  }

  /** Reading the pairs written for ks puts exactly the entries of m named in ks. */
  lemma {:induction false} ReadStateEncoded(acc: map<string, Blob>, m: map<string, Blob>, ks: seq<string>, rest: seq<Token>)
    requires forall k | k in ks :: k in m
    ensures ReadStateInto(acc, EncodePairs(Lift(m), ks) + rest, |ks|) == Decoded(acc + Picked(m, ks), rest, true)
    decreases |ks|
  {
    if ks == [] {
      assert Picked(m, ks) == map[];
      assert acc + map[] == acc;
    } else {
      var k0 := ks[0];
      var lifted := Lift(m);
      var inp := EncodePairs(lifted, ks) + rest;
      assert inp == [StrTok(k0), DataTok(lifted[k0])] + (EncodePairs(lifted, ks[1..]) + rest);
      assert inp[2..] == EncodePairs(lifted, ks[1..]) + rest;
      assert lifted[k0] == Some(m[k0]);
      ReadStateEncoded(acc[k0 := m[k0]], m, ks[1..], rest);
      PickedCons(acc, m, ks);
    }
  }

  /** Putting the first picked entry, then the rest, is putting all picked entries. */
  lemma PickedCons(acc: map<string, Blob>, m: map<string, Blob>, ks: seq<string>)
    requires ks != []
    requires forall k | k in ks :: k in m
    ensures acc[ks[0] := m[ks[0]]] + Picked(m, ks[1..]) == acc + Picked(m, ks)
  {
    assert forall k :: k in ks <==> k == ks[0] || k in ks[1..];
  }

  /**
   * readData upserts: reading the encoding of m into a state holding acc
   * yields acc overridden by m, and consumes exactly the encoding.
   */
  lemma ReadDataUpserts(acc: map<string, Blob>, m: map<string, Blob>, ks: seq<string>, rest: seq<Token>)
    requires Enumerates(ks, m.Keys)
    ensures ReadState(acc, EncodeMap(Lift(m), ks) + rest) == Decoded(acc + m, rest, true)
  {
    var lm := Lift(m);
    EnumerationLength(lm, ks);
    assert |lm| == |m| by {
      assert lm.Keys == m.Keys;
    }
    var inp := EncodeMap(lm, ks) + rest;
    assert inp[0] == IntTok(|ks|);
    assert inp[1..] == EncodePairs(lm, ks) + rest;
    ReadStateEncoded(acc, m, ks, rest);
    PickedAll(m, ks);
  }

  /** Picking every key of m gives m back. */
  lemma PickedAll(m: map<string, Blob>, ks: seq<string>)
    requires Enumerates(ks, m.Keys)
    ensures Picked(m, ks) == m
  {
  }

  /** readData on a fresh state after writeData reproduces the attribute map. */
  lemma StateRoundTrip(m: map<string, Blob>, ks: seq<string>, rest: seq<Token>)
    requires Enumerates(ks, m.Keys)
    ensures ReadState(map[], EncodeMap(Lift(m), ks) + rest) == Decoded(m, rest, true)
  {
    ReadDataUpserts(map[], m, ks, rest);
    assert map[] + m == m;
  }

  /**
   * What Hazelcast does when a SessionState crosses the wire: writeData on
   * one side, readData into a fresh SessionState on the other.
   */
  method Transfer(s: SessionState) returns (t: SessionState)
    ensures t.attributes == s.attributes
  {
    var out, order := s.WriteData();
    t := new SessionState();
    var rest, ok := t.ReadData(out);
    StateRoundTrip(s.attributes, order, []);
    assert out + [] == out;
  }
}
