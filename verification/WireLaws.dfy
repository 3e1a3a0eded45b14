/** What the bytes on the wire are, and every verdict of the decoder, in terms of those bytes. */
module WireLaws {
  import opened Bytes
  import opened Options
  import opened Decimals
  import opened Resp

  /** The six encodings, byte by byte. */
  lemma EncodedBytes(text: Bytes, n: int, parts: seq<Bytes>)
    ensures EncodeSimpleString(text) == [43] + text + [13, 10]
    ensures EncodeError(text) == [45] + text + [13, 10]
    ensures EncodeInteger(n) == [58] + FormatInt(n) + [13, 10]
    ensures EncodeBulkString(text) == [36] + FormatInt(|text|) + [13, 10] + text + [13, 10]
    ensures EncodeNullBulkString() == [36, 45, 49, 13, 10]
    ensures ArrayOf(parts) == [42] + FormatInt(|parts|) + [13, 10] + Concat(parts)
  {
  }

  /** The line behind the first byte ends at position i, with the first CR LF. */
  ghost predicate LineAt(data: Bytes, i: nat) {
    && 1 <= i && i + 1 < |data| && data[i] == 13 && data[i + 1] == 10
    && forall j :: 1 <= j < i ==> !(data[j] == 13 && data[j + 1] == 10)
  }

  lemma LineIs(data: Bytes)
    ensures LineFrom(data, 1).None? <==> !exists i: nat :: LineAt(data, i)
    ensures forall i: nat :: LineAt(data, i) ==> LineFrom(data, 1) == Some(Line(data[1..i], i + 2))
  {
    var r := LineEnd(data, 1);
    if r.Some? {
      forall j | 1 <= j < r.value ensures !(data[j] == 13 && data[j + 1] == 10) {
        assert !CrlfAt(data, j);
      }
      assert LineAt(data, r.value);
    }
    forall i: nat | LineAt(data, i) ensures LineFrom(data, 1) == Some(Line(data[1..i], i + 2)) {
      assert CrlfAt(data, i);
      assert r.Some? ==> r.value >= i;
    }
  }

  /** Without a whole line there is no verdict yet, unless the first byte says it all. */
  lemma NoLine(data: Bytes)
    requires !exists i: nat :: LineAt(data, i)
    ensures Decode(data) ==
      if data == [] || data[0] == 43 || data[0] == 45 || data[0] == 58 || data[0] == 36 || data[0] == 42 then Incomplete
      else Malformed(UnknownPrefix(data[0]))
  {
    LineIs(data);
    hide LineFrom, ParseInt, DecodeMany;
  }

  /** The verdict on simple strings, errors, integers and unknown prefixes. */
  lemma LineVerdict(data: Bytes, i: nat)
    requires LineAt(data, i)
    ensures data[0] == 43 ==> Decode(data) == Done(Str(data[1..i]), i + 2)
    ensures data[0] == 45 ==> Decode(data) == Done(Err(data[1..i]), i + 2)
    ensures data[0] == 58 ==> forall n :: ParseInt(data[1..i]) == Some(n) ==> Decode(data) == Done(Int(n), i + 2)
    ensures data[0] == 58 && ParseInt(data[1..i]) == None ==> Decode(data) == Malformed(InvalidInteger(data[1..i]))
    ensures data[0] != 43 && data[0] != 45 && data[0] != 58 && data[0] != 36 && data[0] != 42 ==>
      Decode(data) == Malformed(UnknownPrefix(data[0]))
  {
    LineIs(data);
    hide LineFrom, ParseInt, DecodeBulk, DecodeArray;
  }

  /** What the line behind a bulk string's or an array's first byte says. */
  lemma LengthVerdict(data: Bytes, i: nat)
    requires LineAt(data, i)
    ensures LengthLine(data) ==
      match ParseInt(data[1..i])
      case None => Malformed(InvalidLength(data[1..i]))
      case Some(n) => Done(n, i + 2)
  {
    LineIs(data);
    hide LineFrom, ParseInt, LineAt;
  }

  /** What a bulk string of length n is, when its bytes start at `next`: that many, whatever they are, and CR LF. */
  ghost function Bulk(data: Bytes, n: int, next: nat): Result<Value> {
    if n == -1 then Done(Nil, next)
    else if n < -1 then Malformed(InvalidBulkLength(n))
    else if |data| < next + n + 2 then Incomplete
    else if data[next + n] != 13 || data[next + n + 1] != 10 then Malformed(MissingTerminator)
    else Done(Str(data[next..next + n]), next + n + 2)
  }

  lemma BulkBody(data: Bytes, n: int, next: nat)
    requires data != [] && data[0] == 36 && LengthLine(data) == Done(n, next)
    ensures Decode(data) == Bulk(data, n, next)
  {
    hide LengthLine, ParseInt;
    assert Decode(data) == DecodeBulk(data);
    hide Decode;
  }

  /** The verdict on bulk strings, by the length n on the line. */
  lemma BulkVerdict(data: Bytes, i: nat, n: int)
    requires LineAt(data, i) && data[0] == 36 && ParseInt(data[1..i]) == Some(n)
    ensures Decode(data) == Bulk(data, n, i + 2)
  {
    assert data != [];
    hide *;
    LengthVerdict(data, i);
    BulkBody(data, n, i + 2);
  }

  /** A length that is no integer. */
  lemma BadLength(data: Bytes, i: nat)
    requires LineAt(data, i) && (data[0] == 36 || data[0] == 42) && ParseInt(data[1..i]) == None
    ensures Decode(data) == Malformed(InvalidLength(data[1..i]))
  {
    LengthVerdict(data, i);
    hide LengthLine, LineAt, ParseInt;
  }

  /** Where element j of an array starts: behind the one before it, if that can be read. */
  ghost function StartOf(data: Bytes, j: nat): (p: Option<nat>)
    ensures p.Some? ==> p.value <= |data|
  {
    if j == 0 then Some(0)
    else if StartOf(data, j - 1).None? || !Decode(data[StartOf(data, j - 1).value..]).Done? then None
    else Some(StartOf(data, j - 1).value + Decode(data[StartOf(data, j - 1).value..]).consumed)
  }

  ghost function Elements(data: Bytes, j: nat): (items: seq<Value>)
    requires StartOf(data, j).Some?
    ensures |items| == j
  {
    if j == 0 then [] else Elements(data, j - 1) + [Decode(data[StartOf(data, j - 1).value..]).value]
  }

  lemma {:induction false} ReadSoFar(data: Bytes, n: nat, j: nat)
    requires j <= n && StartOf(data, j).Some?
    ensures var p := StartOf(data, j).value;
      DecodeMany(data, n) == Continue(Elements(data, j), p, DecodeMany(data[p..], n - j))
  {
    hide Decode, DecodeMany;
    if j == 0 {
      assert data[0..] == data;
      ContinueFromNothing(DecodeMany(data, n));
    } else {
      ReadSoFar(data, n, j - 1);
      var p := StartOf(data, j - 1).value;
      ReadItem(data[p..], n - (j - 1), Elements(data, j - 1), p);
      assert data[p..][Decode(data[p..]).consumed..] == data[StartOf(data, j).value..];
    }
  }

  /** n elements, each read where the one before it ended. */
  lemma ElementsRead(data: Bytes, n: nat)
    requires StartOf(data, n).Some?
    ensures DecodeMany(data, n) == Done(Elements(data, n), StartOf(data, n).value)
  {
    ReadSoFar(data, n, n);
    var p := StartOf(data, n).value;
    NothingLeft(data[p..], Elements(data, n), p);
  }

  /** The first element that cannot be read decides. */
  lemma ElementsStop(data: Bytes, n: nat, j: nat)
    requires j < n && StartOf(data, j).Some? && !Decode(data[StartOf(data, j).value..]).Done?
    ensures var r := Decode(data[StartOf(data, j).value..]);
      DecodeMany(data, n) == if r.Incomplete? then Incomplete else Malformed(r.error)
  {
    ReadSoFar(data, n, j);
    var p := StartOf(data, j).value;
    hide Decode;
    ReadItem(data[p..], n - j, Elements(data, j), p);
  }

  ghost function Listed(r: Result<seq<Value>>, next: nat): Result<Value> {
    match r
    case Incomplete => Incomplete
    case Malformed(e) => Malformed(e)
    case Done(items, used) => Done(List(items), next + used)
  }

  /** The verdict on arrays: a length, and that many elements. */
  lemma ArrayVerdict(data: Bytes, i: nat, n: int)
    requires LineAt(data, i) && data[0] == 42 && ParseInt(data[1..i]) == Some(n)
    ensures n == -1 ==> Decode(data) == Done(Nil, i + 2)
    ensures n < -1 ==> Decode(data) == Malformed(InvalidArrayLength(n))
    ensures n >= 0 ==> Decode(data) == Listed(DecodeMany(data[i + 2..], n), i + 2)
  {
    LengthVerdict(data, i);
    hide LengthLine, LineAt, ParseInt, DecodeMany;
  }
}
