/** The RESP2 decoder and encoders, and command parsing. */
module Resp {
  import opened Bytes
  import opened Options
  import opened Decimals

  const CR: byte := 13
  const LF: byte := 10
  const COLON: byte := 58
  const DOLLAR: byte := 36
  const STAR: byte := 42

  const CRLF: Bytes := [CR, LF]

  datatype Value = Str(text: Bytes) | Err(text: Bytes) | Int(n: int) | Nil | List(items: seq<Value>)

  datatype ProtocolError =
    | UnknownPrefix(prefix: byte)
    | InvalidInteger(line: Bytes)
    | InvalidLength(line: Bytes)
    | InvalidBulkLength(length: int)
    | InvalidArrayLength(length: int)
    | MissingTerminator
    | NotAnArray
    | ZeroArity
    | InvalidCommandToken(reason: TokenError)
    | InvalidArgumentToken(index: nat, reason: TokenError)

  datatype TokenError = IntegerNotAllowed | NullNotAllowed | UnsupportedType

  /** A decoder's verdict on a buffer. */
  datatype Result<T> = Done(value: T, consumed: nat) | Incomplete | Malformed(error: ProtocolError)

  predicate CrlfAt(data: Bytes, i: int) {
    0 <= i && i + 1 < |data| && data[i] == CR && data[i + 1] == LF
  }

  /** The first CRLF at or after `i`. */
  function LineEnd(data: Bytes, i: nat): (r: Option<nat>)
    ensures r.Some? ==> i <= r.value && CrlfAt(data, r.value)
    ensures forall j :: i <= j && (r.Some? ==> j < r.value) ==> !CrlfAt(data, j)
    decreases |data| - i
  {
    if i + 1 >= |data| then None
    else if CrlfAt(data, i) then Some(i)
    else LineEnd(data, i + 1)
  }

  /** A line's text and the position after its CRLF. */
  datatype Line = Line(text: Bytes, next: nat)

  /** The text from `start` up to the first CRLF. */
  function LineFrom(data: Bytes, start: nat): (r: Option<Line>)
    ensures r.Some? ==> start + 2 <= r.value.next <= |data|
  {
    match LineEnd(data, start)
    case None => None
    case Some(i) => Some(Line(data[start..i], i + 2))
  }

  method ReadLine(data: Bytes, start: nat) returns (r: Option<Line>)
    ensures r == LineFrom(data, start)
  {
    var i := start;
    while i + 1 < |data|
      invariant start <= i && forall j :: start <= j < i ==> !CrlfAt(data, j)
    {
      if data[i] == CR && data[i + 1] == LF {
        assert CrlfAt(data, i);
        return Some(Line(data[start..i], i + 2));
      }
      i := i + 1;
    }
    r := None;
  }

  function LengthLine(data: Bytes): (r: Result<int>)
    ensures r.Done? ==> 3 <= r.consumed <= |data|
  {
    match LineFrom(data, 1)
    case None => Incomplete
    case Some(line) =>
      match ParseInt(line.text)
      case Some(n) => Done(n, line.next)
      case None => Malformed(InvalidLength(line.text))
  }

  function DecodeInteger(data: Bytes): (r: Result<Value>)
    ensures r.Done? ==> 3 <= r.consumed <= |data|
  {
    match LineFrom(data, 1)
    case None => Incomplete
    case Some(line) =>
      match ParseInt(line.text)
      case Some(n) => Done(Int(n), line.next)
      case None => Malformed(InvalidInteger(line.text))
  }

  function DecodeLine(data: Bytes, asError: bool): (r: Result<Value>)
    ensures r.Done? ==> 3 <= r.consumed <= |data|
  {
    match LineFrom(data, 1)
    case None => Incomplete
    case Some(line) => Done(if asError then Err(line.text) else Str(line.text), line.next)
  }

  function DecodeBulk(data: Bytes): (r: Result<Value>)
    ensures r.Done? ==> 3 <= r.consumed <= |data|
  {
    match LengthLine(data)
    case Incomplete => Incomplete
    case Malformed(e) => Malformed(e)
    case Done(n, next) =>
      if n == -1 then Done(Nil, next)
      else if n < -1 then Malformed(InvalidBulkLength(n))
      else if |data| < next + n + 2 then Incomplete
      else if !CrlfAt(data, next + n) then Malformed(MissingTerminator)
      else Done(Str(data[next..next + n]), next + n + 2)
  }

  /** One RESP2 value from the front of the buffer. */
  function Decode(data: Bytes): (r: Result<Value>)
    ensures r.Done? ==> 3 <= r.consumed <= |data|
    decreases |data|, 0
  {
    if data == [] then Incomplete
    else if data[0] == PLUS then DecodeLine(data, false)
    else if data[0] == MINUS then DecodeLine(data, true)
    else if data[0] == COLON then DecodeInteger(data)
    else if data[0] == DOLLAR then DecodeBulk(data)
    else if data[0] == STAR then DecodeArray(data)
    else Malformed(UnknownPrefix(data[0]))
  }

  function DecodeArray(data: Bytes): (r: Result<Value>)
    ensures r.Done? ==> 3 <= r.consumed <= |data|
    decreases |data|, 0, 0
  {
    match LengthLine(data)
    case Incomplete => Incomplete
    case Malformed(e) => Malformed(e)
    case Done(n, next) =>
      if n == -1 then Done(Nil, next)
      else if n < -1 then Malformed(InvalidArrayLength(n))
      else Listed(next, DecodeMany(data[next..], n))
  }

  /** The array of the values after a header. */
  function Listed(next: nat, items: Result<seq<Value>>): Result<Value> {
    match items
    case Incomplete => Incomplete
    case Malformed(e) => Malformed(e)
    case Done(items, used) => Done(List(items), next + used)
  }

  /** n values, one after another. */
  function DecodeMany(data: Bytes, n: nat): (r: Result<seq<Value>>)
    ensures r.Done? ==> r.consumed <= |data| && |r.value| == n
    decreases |data|, 1, n
  {
    if n == 0 then Done([], 0)
    else
      match Decode(data)
      case Incomplete => Incomplete
      case Malformed(e) => Malformed(e)
      case Done(v, used) =>
        match DecodeMany(data[used..], n - 1)
        case Incomplete => Incomplete
        case Malformed(e) => Malformed(e)
        case Done(items, more) => Done([v] + items, used + more)
  }

  /** The outcome for a whole array, given the items read so far and the outcome for the rest. */
  function Continue(items: seq<Value>, used: nat, rest: Result<seq<Value>>): Result<seq<Value>> {
    if rest.Done? then Done(items + rest.value, used + rest.consumed) else rest
  }

  lemma ContinueFromNothing(rest: Result<seq<Value>>)
    ensures Continue([], 0, rest) == rest
  {
    assert rest.Done? ==> [] + rest.value == rest.value;
  }

  lemma NothingLeft(rest: Bytes, items: seq<Value>, used: nat)
    ensures Continue(items, used, DecodeMany(rest, 0)) == Done(items, used)
  {
    assert items + [] == items;
  }

  lemma ReadItem(rest: Bytes, n: nat, items: seq<Value>, used: nat)
    requires n > 0
    ensures var r, all := Decode(rest), Continue(items, used, DecodeMany(rest, n));
      if r.Done? then
        all == Continue(items + [r.value], used + r.consumed, DecodeMany(rest[r.consumed..], n - 1))
      else
        all == if r.Incomplete? then Incomplete else Malformed(r.error)
  {
    hide Decode;
    var r := Decode(rest);
    if r.Done? && DecodeMany(rest[r.consumed..], n - 1).Done? {
      var more := DecodeMany(rest[r.consumed..], n - 1).value;
      assert items + ([r.value] + more) == items + [r.value] + more;
    }
  }

  method DecodeOne(data: Bytes) returns (r: Result<Value>)
    ensures r == Decode(data)
    decreases |data|, 1
  {
    if |data| == 0 {
      return Incomplete;
    }
    if data[0] == PLUS || data[0] == MINUS {
      var line := ReadLine(data, 1);
      if line.None? {
        return Incomplete;
      }
      r := Done(if data[0] == PLUS then Str(line.value.text) else Err(line.value.text), line.value.next);
    } else if data[0] == COLON {
      r := ReadInteger(data);
    } else if data[0] == DOLLAR {
      r := ReadBulkString(data);
    } else if data[0] == STAR {
      r := ReadArray(data);
    } else {
      r := Malformed(UnknownPrefix(data[0]));
    }
  }

  method ReadLengthLine(data: Bytes) returns (r: Result<int>)
    ensures r == LengthLine(data)
  {
    var line := ReadLine(data, 1);
    if line.None? {
      return Incomplete;
    }
    var n := ParseInt(line.value.text);
    r := if n.Some? then Done(n.value, line.value.next) else Malformed(InvalidLength(line.value.text));
  }

  method ReadInteger(data: Bytes) returns (r: Result<Value>)
    ensures r == DecodeInteger(data)
  {
    var line := ReadLine(data, 1);
    if line.None? {
      return Incomplete;
    }
    var n := ParseInt(line.value.text);
    r := if n.Some? then Done(Int(n.value), line.value.next) else Malformed(InvalidInteger(line.value.text));
  }

  method ReadBulkString(data: Bytes) returns (r: Result<Value>)
    ensures r == DecodeBulk(data)
  {
    var header := ReadLengthLine(data);
    if header.Incomplete? {
      return Incomplete;
    }
    if header.Malformed? {
      return Malformed(header.error);
    }
    var length, next := header.value, header.consumed;
    if length == -1 {
      return Done(Nil, next);
    }
    if length < -1 {
      return Malformed(InvalidBulkLength(length));
    }
    if |data| < next + length + 2 {
      return Incomplete;
    }
    if data[next + length] != CR || data[next + length + 1] != LF {
      return Malformed(MissingTerminator);
    }
    r := Done(Str(data[next..next + length]), next + length + 2);
  }

  method ReadArray(data: Bytes) returns (r: Result<Value>)
    ensures r == DecodeArray(data)
    decreases |data|, 0
  {
    hide Decode, LengthLine, DecodeMany, Continue;
    var header := ReadLengthLine(data);
    if header.Incomplete? {
      return Incomplete;
    }
    if header.Malformed? {
      return Malformed(header.error);
    }
    var length, next := header.value, header.consumed;
    if length == -1 {
      return Done(Nil, next);
    }
    if length < -1 {
      return Malformed(InvalidArrayLength(length));
    }
    var result, pos := [], next;
    ContinueFromNothing(DecodeMany(data[next..], length));
    for i := 0 to length
      invariant next <= pos <= |data| && |result| == i
      invariant DecodeMany(data[next..], length) == Continue(result, pos - next, DecodeMany(data[pos..], length - i))
    {
      ReadItem(data[pos..], length - i, result, pos - next);
      var item := DecodeOne(data[pos..]);
      if item.Incomplete? {
        return Incomplete;
      }
      if item.Malformed? {
        return Malformed(item.error);
      }
      assert data[pos..][item.consumed..] == data[pos + item.consumed..];
      result := result + [item.value];
      pos := pos + item.consumed;
    }
    NothingLeft(data[pos..], result, pos - next);
    r := Done(List(result), pos);
  }

  // ----- stability under extension -----

  lemma {:induction false} LineStable(data: Bytes, x: Bytes, start: nat)
    ensures LineFrom(data, start).Some? ==> LineFrom(data + x, start) == LineFrom(data, start)
  {
    var r := LineEnd(data, start);
    if r.Some? {
      var k := r.value;
      assert forall j :: 0 <= j <= k ==> CrlfAt(data + x, j) == CrlfAt(data, j);
      assert LineEnd(data + x, start) == Some(k);
      assert (data + x)[start..k] == data[start..k];
    }
  }

  lemma SamePart(data: Bytes, x: Bytes, i: nat, j: nat)
    requires i <= j <= |data|
    ensures (data + x)[i..j] == data[i..j]
    ensures forall k :: 0 <= k < |data| ==> (data + x)[k] == data[k]
  {
  }

  lemma LengthStable(data: Bytes, x: Bytes)
    requires !LengthLine(data).Incomplete?
    ensures LengthLine(data + x) == LengthLine(data)
  {
    LineStable(data, x, 1);
    hide LineFrom, ParseInt;
  }

  lemma BulkStable(data: Bytes, x: Bytes)
    requires !DecodeBulk(data).Incomplete?
    ensures DecodeBulk(data + x) == DecodeBulk(data)
  {
    LengthStable(data, x);
    hide LengthLine;
    if LengthLine(data).Done? {
      var next, n := LengthLine(data).consumed, LengthLine(data).value;
      if n >= 0 {
        assert |data| >= next + n + 2;
        SamePart(data, x, next, next + n);
      }
    }
  }

  lemma ArrayHeld(data: Bytes)
    requires LengthLine(data).Done? && LengthLine(data).value >= 0
    ensures var next, n := LengthLine(data).consumed, LengthLine(data).value;
      DecodeArray(data) == Listed(next, DecodeMany(data[next..], n))
  {
    hide LengthLine, DecodeMany;
  }

  lemma ArrayNotHeld(data: Bytes)
    requires !(LengthLine(data).Done? && LengthLine(data).value >= 0)
    ensures DecodeArray(data) == match LengthLine(data)
      case Incomplete => Incomplete
      case Malformed(e) => Malformed(e)
      case Done(n, next) => if n == -1 then Done(Nil, next) else Malformed(InvalidArrayLength(n))
  {
    hide LengthLine;
  }

  lemma {:induction false} ArrayStable(data: Bytes, x: Bytes)
    requires !DecodeArray(data).Incomplete?
    ensures DecodeArray(data + x) == DecodeArray(data)
    decreases |data|, 0, 0
  {
    hide LengthLine, DecodeMany, DecodeArray;
    if LengthLine(data).Incomplete? {
      ArrayNotHeld(data);
      assert false;
    }
    LengthStable(data, x);
    if LengthLine(data).Done? && LengthLine(data).value >= 0 {
      var next, n := LengthLine(data).consumed, LengthLine(data).value;
      ArrayHeld(data);
      ArrayHeld(data + x);
      DecodeManyStable(data[next..], x, n);
      assert (data + x)[next..] == data[next..] + x;
    } else {
      ArrayNotHeld(data);
      ArrayNotHeld(data + x);
    }
  }

  /** A verdict other than Incomplete is final: more bytes never change it. */
  lemma {:induction false} DecodeStable(data: Bytes, x: Bytes)
    requires !Decode(data).Incomplete?
    ensures Decode(data + x) == Decode(data)
    decreases |data|, 0
  {
    assert (data + x)[0] == data[0];
    if data[0] == STAR {
      ArrayStable(data, x);
    } else if data[0] == DOLLAR {
      BulkStable(data, x);
    } else {
      LineStable(data, x, 1);
    }
  }

  lemma {:induction false} DecodeManyStable(data: Bytes, x: Bytes, n: nat)
    requires !DecodeMany(data, n).Incomplete?
    ensures DecodeMany(data + x, n) == DecodeMany(data, n)
    decreases |data|, 1, n
  {
    hide Decode;
    if n > 0 {
      DecodeStable(data, x);
      if Decode(data).Done? {
        var used := Decode(data).consumed;
        DecodeManyStable(data[used..], x, n - 1);
        assert (data + x)[used..] == data[used..] + x;
      }
    }
  }

  // ----- a value depends on its own bytes only -----

  lemma LineExact(data: Bytes, start: nat, m: nat)
    requires LineFrom(data, start).Some? && LineFrom(data, start).value.next <= m <= |data|
    ensures LineFrom(data[..m], start) == LineFrom(data, start)
  {
    var k := LineEnd(data, start).value;
    assert forall j :: 0 <= j <= k ==> CrlfAt(data[..m], j) == CrlfAt(data, j);
    assert LineEnd(data[..m], start) == Some(k);
    assert data[..m][start..k] == data[start..k];
  }

  lemma BulkExact(data: Bytes)
    requires DecodeBulk(data).Done?
    ensures DecodeBulk(data[..DecodeBulk(data).consumed]) == DecodeBulk(data)
  {
    var m := DecodeBulk(data).consumed;
    LineExact(data, 1, m);
    hide LineFrom, ParseInt;
    var next, n := LengthLine(data).consumed, LengthLine(data).value;
    if n >= 0 {
      assert CrlfAt(data[..m], next + n);
      assert data[..m][next..next + n] == data[next..next + n];
    }
  }

  lemma {:induction false} ArrayExact(data: Bytes)
    requires DecodeArray(data).Done?
    ensures DecodeArray(data[..DecodeArray(data).consumed]) == DecodeArray(data)
    decreases |data|, 0, 0
  {
    hide LineFrom, ParseInt, DecodeMany, Decode;
    var m := DecodeArray(data).consumed;
    LineExact(data, 1, m);
    var next, n := LengthLine(data).consumed, LengthLine(data).value;
    if n >= 0 {
      DecodeManyExact(data[next..], n);
      assert data[..m][next..] == data[next..][..m - next];
    }
  }

  lemma {:induction false} DecodeExact(data: Bytes)
    requires Decode(data).Done?
    ensures Decode(data[..Decode(data).consumed]) == Decode(data)
    decreases |data|, 0
  {
    if data[0] == STAR {
      ArrayExact(data);
    } else if data[0] == DOLLAR {
      BulkExact(data);
    } else {
      LineExact(data, 1, Decode(data).consumed);
    }
  }

  lemma {:induction false} DecodeManyExact(data: Bytes, n: nat)
    requires DecodeMany(data, n).Done?
    ensures DecodeMany(data[..DecodeMany(data, n).consumed], n) == DecodeMany(data, n)
    decreases |data|, 1, n
  {
    hide Decode;
    if n > 0 {
      var used, m := Decode(data).consumed, DecodeMany(data, n).consumed;
      DecodeExact(data);
      DecodeStable(data[..used], data[used..m]);
      assert data[..m] == data[..used] + data[used..m];
      DecodeManyExact(data[used..], n - 1);
      assert data[..m][used..] == data[used..][..m - used];
    }
  }

  /** A buffer that starts with a value: every prefix short of it is Incomplete, every other one
      yields that value and length. */
  lemma DecodePrefixes(data: Bytes, m: nat)
    requires Decode(data).Done? && m <= |data|
    ensures Decode(data[..m]) == if m < Decode(data).consumed then Incomplete else Decode(data)
  {
    hide Decode;
    var n := Decode(data).consumed;
    assert data == data[..m] + data[m..];
    if m < n {
      if !Decode(data[..m]).Incomplete? {
        DecodeStable(data[..m], data[m..]);
      }
    } else {
      DecodeExact(data);
      DecodeStable(data[..n], data[n..m]);
      assert data[..m] == data[..n] + data[n..m];
    }
  }

  // ----- encoding -----

  /** What may be sent: simple and bulk strings differ on the wire, not once decoded. */
  datatype Wire =
    | Simple(text: Bytes)
    | Error(text: Bytes)
    | Integer(n: int)
    | Bulk(text: Bytes)
    | NullBulk
    | Array(items: seq<Wire>)

  function EncodeSimpleString(text: Bytes): Bytes {
    [PLUS] + text + CRLF
  }

  function EncodeError(text: Bytes): Bytes {
    [MINUS] + text + CRLF
  }

  function EncodeInteger(n: int): Bytes {
    [COLON] + FormatInt(n) + CRLF
  }

  function EncodeBulkString(text: Bytes): Bytes {
    [DOLLAR] + FormatInt(|text|) + CRLF + (text + CRLF)
  }

  function EncodeNullBulkString(): Bytes {
    [DOLLAR] + FormatInt(-1) + CRLF
  }

  function Concat(parts: seq<Bytes>): Bytes {
    if parts == [] then [] else parts[0] + Concat(parts[1..])
  }

  function ArrayOf(parts: seq<Bytes>): Bytes {
    [STAR] + FormatInt(|parts|) + CRLF + Concat(parts)
  }

  method EncodeArray(elements: seq<Bytes>) returns (r: Bytes)
    ensures r == ArrayOf(elements)
  {
    var builder := [STAR] + FormatInt(|elements|) + CRLF;
    ghost var header := builder;
    for i := 0 to |elements|
      invariant builder + Concat(elements[i..]) == header + Concat(elements)
    {
      assert elements[i..][1..] == elements[i + 1..];
      assert builder + (elements[i] + Concat(elements[i + 1..])) == builder + elements[i] + Concat(elements[i + 1..]);
      builder := builder + elements[i];
    }
    r := builder;
  }

  function Encode(w: Wire): Bytes
    decreases w, 1
  {
    match w
    case Simple(text) => EncodeSimpleString(text)
    case Error(text) => EncodeError(text)
    case Integer(n) => EncodeInteger(n)
    case Bulk(text) => EncodeBulkString(text)
    case NullBulk => EncodeNullBulkString()
    case Array(items) => ArrayOf(EncodeEach(items))
  }

  function EncodeEach(items: seq<Wire>): (r: seq<Bytes>)
    ensures |r| == |items|
    decreases items, 0
  {
    if items == [] then [] else [Encode(items[0])] + EncodeEach(items[1..])
  }

  /** The value a receiver should see. */
  function Meaning(w: Wire): Value
    decreases w, 1
  {
    match w
    case Simple(text) => Str(text)
    case Error(text) => Err(text)
    case Integer(n) => Int(n)
    case Bulk(text) => Str(text)
    case NullBulk => Nil
    case Array(items) => List(MeaningEach(items))
  }

  function MeaningEach(items: seq<Wire>): seq<Value>
    decreases items, 0
  {
    if items == [] then [] else [Meaning(items[0])] + MeaningEach(items[1..])
  }

  predicate NoCrlf(text: Bytes) {
    forall i :: 0 <= i < |text| ==> !CrlfAt(text, i)
  }

  /** Lines without CRLF, 64-bit integers and lengths. */
  predicate Sendable(w: Wire) {
    match w
    case Simple(text) => NoCrlf(text)
    case Error(text) => NoCrlf(text)
    case Integer(n) => MIN_INT64 <= n <= MAX_INT64
    case Bulk(text) => |text| <= MAX_INT64
    case NullBulk => true
    case Array(items) => |items| <= MAX_INT64 && forall i :: 0 <= i < |items| ==> Sendable(items[i])
  }

  /** A line is read back whole when nothing in it looks like its end. */
  lemma LineFound(prefix: byte, text: Bytes, x: Bytes)
    requires NoCrlf(text)
    ensures LineFrom([prefix] + text + CRLF + x, 1) == Some(Line(text, |text| + 3))
  {
    var data, k := [prefix] + text + CRLF + x, |text| + 1;
    assert CrlfAt(data, k);
    forall j | 1 <= j < k ensures !CrlfAt(data, j) {
      if j + 1 < k {
        assert CrlfAt(data, j) == CrlfAt(text, j - 1);
      }
    }
    assert LineEnd(data, 1) == Some(k);
    assert data[1..k] == text;
  }

  lemma NumberHasNoCrlf(n: int)
    ensures NoCrlf(FormatInt(n))
  {
    var s := FormatInt(n);
    assert n < 0 ==> s[1..] == Digits(-n);
    forall i | 0 <= i < |s| ensures s[i] != CR {
      assert n < 0 && i > 0 ==> s[i] == Digits(-n)[i - 1];
    }
  }

  lemma LengthFound(prefix: byte, n: int, x: Bytes)
    requires MIN_INT64 <= n <= MAX_INT64
    ensures LengthLine([prefix] + FormatInt(n) + CRLF + x) == Done(n, |FormatInt(n)| + 3)
  {
    NumberHasNoCrlf(n);
    LineFound(prefix, FormatInt(n), x);
    ParseFormat(n);
  }

  lemma BulkBody(header: Bytes, text: Bytes, x: Bytes)
    requires |header| >= 3 && LengthLine(header + (text + CRLF + x)) == Done(|text|, |header|)
    ensures DecodeBulk(header + (text + CRLF + x)) == Done(Str(text), |header| + |text| + 2)
  {
    hide LengthLine;
    var data, next := header + (text + CRLF + x), |header|;
    assert data[next..next + |text|] == text;
    assert CrlfAt(data, next + |text|);
  }

  lemma BulkRoundTrip(text: Bytes, x: Bytes)
    requires |text| <= MAX_INT64
    ensures Decode(EncodeBulkString(text) + x) == Done(Str(text), |EncodeBulkString(text)|)
  {
    var header := [DOLLAR] + FormatInt(|text|) + CRLF;
    assert EncodeBulkString(text) + x == header + (text + CRLF + x);
    LengthFound(DOLLAR, |text|, text + CRLF + x);
    hide LineFrom, LengthLine, FormatInt, DecodeBulk;
    BulkBody(header, text, x);
  }

  lemma ArrayBody(header: Bytes, n: nat, rest: Bytes, items: seq<Value>, used: nat)
    requires |header| >= 3 && LengthLine(header + rest) == Done(n, |header|)
    requires DecodeMany(rest, n) == Done(items, used)
    ensures DecodeArray(header + rest) == Done(List(items), |header| + used)
  {
    hide LengthLine, DecodeMany;
    assert (header + rest)[|header|..] == rest;
  }

  /** Decoding an encoding, whatever follows it, gives back the value and its exact length. */
  lemma {:induction false} RoundTrip(w: Wire, x: Bytes)
    requires Sendable(w)
    ensures Decode(Encode(w) + x) == Done(Meaning(w), |Encode(w)|)
    decreases w, 1
  {
    match w
    case Simple(text) => LineFound(PLUS, text, x);
    case Error(text) => LineFound(MINUS, text, x);
    case Integer(n) => IntegerRoundTrip(n, x);
    case Bulk(text) => BulkRoundTrip(text, x);
    case NullBulk => LengthFound(DOLLAR, -1, x);
    case Array(items) => ArrayRoundTrip(items, x);
  }

  lemma ArrayParts(parts: seq<Bytes>, x: Bytes)
    ensures var header, body := [STAR] + FormatInt(|parts|) + CRLF, Concat(parts);
      ArrayOf(parts) + x == header + (body + x) && |ArrayOf(parts)| == |header| + |body|
  {
    hide FormatInt, Concat;
  }

  lemma StarFirst(header: Bytes, rest: Bytes)
    requires header != [] && header[0] == STAR
    ensures Decode(header + rest) == DecodeArray(header + rest)
  {
    hide DecodeArray;
    assert (header + rest)[0] == STAR;
  }

  lemma {:induction false} ArrayRoundTrip(items: seq<Wire>, x: Bytes)
    requires |items| <= MAX_INT64 && forall i :: 0 <= i < |items| ==> Sendable(items[i])
    ensures var e := ArrayOf(EncodeEach(items)); Decode(e + x) == Done(List(MeaningEach(items)), |e|)
    decreases items, 1
  {
    hide LengthLine, FormatInt, DecodeMany, Concat, EncodeEach, MeaningEach, LineFrom, ParseInt, DecodeArray;
    var header, body := [STAR] + FormatInt(|items|) + CRLF, Concat(EncodeEach(items));
    ArrayParts(EncodeEach(items), x);
    LengthFound(STAR, |items|, body + x);
    ManyRoundTrip(items, x);
    ArrayBody(header, |items|, body + x, MeaningEach(items), |body|);
    StarFirst(header, body + x);
  }

  lemma IntegerRoundTrip(n: int, x: Bytes)
    requires MIN_INT64 <= n <= MAX_INT64
    ensures Decode(EncodeInteger(n) + x) == Done(Int(n), |EncodeInteger(n)|)
  {
    NumberHasNoCrlf(n);
    LineFound(COLON, FormatInt(n), x);
    ParseFormat(n);
  }

  lemma {:induction false} ManyRoundTrip(items: seq<Wire>, x: Bytes)
    requires forall i :: 0 <= i < |items| ==> Sendable(items[i])
    ensures var body := Concat(EncodeEach(items));
      DecodeMany(body + x, |items|) == Done(MeaningEach(items), |body|)
    decreases items, 0
  {
    if items != [] {
      var first, rest := Encode(items[0]), Concat(EncodeEach(items[1..]));
      assert EncodeEach(items)[1..] == EncodeEach(items[1..]);
      assert Concat(EncodeEach(items)) + x == first + (rest + x);
      RoundTrip(items[0], rest + x);
      ManyRoundTrip(items[1..], x);
      assert (first + (rest + x))[|first|..] == rest + x;
    }
  }

  /** A simple string survives exactly when it contains no CRLF. */
  lemma SimpleRoundTripIff(text: Bytes, x: Bytes)
    ensures Decode(EncodeSimpleString(text) + x) == Done(Str(text), |EncodeSimpleString(text)|) <==> NoCrlf(text)
  {
    if NoCrlf(text) {
      LineFound(PLUS, text, x);
    } else {
      var data := EncodeSimpleString(text) + x;
      var i :| 0 <= i < |text| && CrlfAt(text, i);
      assert CrlfAt(data, i + 1);
    }
  }
}
