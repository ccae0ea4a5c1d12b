/** Unpack, readValue, checkFormatAndBufSize and UnpackFrom.

    `UnpackChars` is the character loop of Unpack over a byte cursor, with
    `TextLoop` and `ScalarLoop` its two inner loops; `DecodeFrom` is the
    decoding of the parsed items from a position, independently of the
    loop. `UnpackCharsByItems` ties the two together. */
module Unpacker {
  import opened Types
  import opened Format

  /** The part of a bytes.Reader that Unpack uses: the data and a cursor. */
  class Reader {
    const data: seq<byte>
    var pos: nat

    predicate Valid()
      reads this
    {
      pos <= |data|
    }

    constructor (data: seq<byte>)
      ensures this.data == data && pos == 0 && Valid()
    {
      this.data := data;
      pos := 0;
    }

    /** The next byte and an advanced cursor, or the end of the data. */
    method ReadByte() returns (b: byte, eof: bool)
      requires Valid()
      modifies this
      ensures Valid()
      ensures old(pos) < |data| ==> !eof && b == data[old(pos)] && pos == old(pos) + 1
      ensures old(pos) == |data| ==> eof && b == 0 && pos == old(pos)
    {
      if pos == |data| {
        return 0, true;
      }
      b := data[pos];
      pos := pos + 1;
      eof := false;
    }
  }

  /** readValue: the next width(c) bytes, or the EOF error when fewer remain
      (the bytes that were there are consumed all the same). */
  method ReadValue(t: Tables, reader: Reader, c: char) returns (value: seq<byte>, err: Option<Error>)
    requires reader.Valid()
    modifies reader
    ensures reader.Valid()
    ensures old(reader.pos) + t.width(c) <= |reader.data| ==>
      err == None && reader.pos == old(reader.pos) + t.width(c) &&
      value == reader.data[old(reader.pos)..reader.pos]
    ensures old(reader.pos) + t.width(c) > |reader.data| ==>
      err == Some(Eof) && value == [] && reader.pos == |reader.data|
  {
    ghost var start := reader.pos;
    value := [];
    var i := 0;
    while i < t.width(c)
      invariant 0 <= i <= t.width(c)
      invariant reader.Valid()
      invariant reader.pos == start + i
      invariant value == reader.data[start..reader.pos]
    {
      var b, eof := reader.ReadByte();
      if eof {
        return [], Some(Eof);
      }
      value := value + [b];
      i := i + 1;
    }
    return value, None;
  }

  /** checkFormatAndBufSize: the CalcSize error, else the size-mismatch
      error naming the format's size when it differs from `expected`. */
  method CheckFormatAndBufSize(t: Tables, format: string, expected: int) returns (err: Option<Error>)
    requires |format| > 0
    ensures SizeSpec(t, format).Err? ==> err == Some(SizeSpec(t, format).error)
    ensures SizeSpec(t, format).Ok? ==>
      (err == None <==> SizeSpec(t, format).value == expected) &&
      (err != None ==> err == Some(SizeMismatch(SizeSpec(t, format).value)))
  {
    var size := CalcSize(t, format);
    if size.Err? {
      return Some(size.error);
    }
    if size.value != expected {
      return Some(SizeMismatch(size.value));
    }
    return None;
  }

  // ----- The loops of Unpack, from a cursor position -----

  /** The string item's loop: `k` chunks of `w` bytes, each turned into text
      by parseString and appended; the text and the new cursor. */
  function TextLoop(t: Tables, data: seq<byte>, pos: nat, w: nat, k: nat, acc: string): Result<(string, nat), Error>
    decreases k
  {
    if k == 0 then Ok((acc, pos))
    else if pos + w > |data| then Err(Eof)
    else TextLoop(t, data, pos + w, w, k - 1, acc + t.parseString(data[pos..pos + w]))
  }

  /** A parsed value, or nothing when parseValue returns nil. */
  function Listed(v: Option<Value>): seq<Value> {
    match v
    case None => []
    case Some(x) => [x]
  }

  /** A scalar item's loop: `k` chunks of width(c) bytes, each parsed and
      appended when parseValue gives a value. */
  function ScalarLoop(t: Tables, o: Order, c: char, data: seq<byte>, pos: nat, k: nat, acc: seq<Value>): Result<(seq<Value>, nat), Error>
    decreases k
  {
    var w := t.width(c);
    if k == 0 then Ok((acc, pos))
    else if pos + w > |data| then Err(Eof)
    else ScalarLoop(t, o, c, data, pos + w, k - 1, acc + Listed(t.parseValue(data[pos..pos + w], c, o)))
  }

  /** One item read from the cursor, appended to the values. */
  function UnpackItem(t: Tables, o: Order, it: Item, data: seq<byte>, pos: nat, values: seq<Value>): Result<(seq<Value>, nat), Error> {
    if it.code == t.stringCode then
      match TextLoop(t, data, pos, t.width(it.code), it.count, "")
      case Err(e) => Err(e)
      case Ok((text, next)) => Ok((values + [Text(text)], next))
    else
      ScalarLoop(t, o, it.code, data, pos, it.count, values)
  }

  /** The character loop of Unpack, run from the given state: the values and
      the final cursor, or the first error. */
  function UnpackChars(t: Tables, o: Order, s: string, data: seq<byte>, pos: nat, num: nat, values: seq<Value>): Result<(seq<Value>, nat), Error>
    decreases |s|
  {
    if s == [] then Ok((values, pos))
    else
      var add := AddNum(num, s[0]);
      if add > 0 then UnpackChars(t, o, s[1..], data, pos, num + add, values)
      else
        var n := if num == 0 then 1 else num;
        if s[0] !in t.codes then Err(BadChar(s[0]))
        else
          match UnpackItem(t, o, Item(n, s[0]), data, pos, values)
          case Err(e) => Err(e)
          case Ok((vs, next)) => UnpackChars(t, o, s[1..], data, next, 0, vs)
  }

  // ----- The decoding, independently of the loop -----

  /** The text of a string item: the parseString of each chunk, in order. */
  function TextOf(t: Tables, data: seq<byte>, pos: nat, w: nat, k: nat): string
    requires pos + Span(k, w) <= |data|
    decreases k
  {
    if k == 0 then ""
    else
      t.parseString(data[pos..pos + w]) + TextOf(t, data, pos + w, w, k - 1)
  }

  /** The values of a scalar item: each chunk that parses, in order. */
  function ScalarsOf(t: Tables, o: Order, c: char, data: seq<byte>, pos: nat, k: nat): seq<Value>
    requires pos + Span(k, t.width(c)) <= |data|
    decreases k
  {
    var w := t.width(c);
    if k == 0 then []
    else
      Listed(t.parseValue(data[pos..pos + w], c, o)) + ScalarsOf(t, o, c, data, pos + w, k - 1)
  }

  /** The values one item decodes to: exactly one text for a string item. */
  function DecodeItem(t: Tables, o: Order, it: Item, data: seq<byte>, pos: nat): seq<Value>
    requires pos + Span(it.count, t.width(it.code)) <= |data|
  {
    if it.code == t.stringCode then [Text(TextOf(t, data, pos, t.width(it.code), it.count))]
    else ScalarsOf(t, o, it.code, data, pos, it.count)
  }

  /** The items decoded one after the other from `pos`. */
  function DecodeFrom(t: Tables, o: Order, items: seq<Item>, data: seq<byte>, pos: nat): seq<Value>
    requires pos + SizeOf(t, items) <= |data|
    decreases |items|
  {
    if items == [] then []
    else
      var it := items[0];
      DecodeItem(t, o, it, data, pos) + DecodeFrom(t, o, items[1..], data, pos + Span(it.count, t.width(it.code)))
  }

  /** What Unpack does with a format and a buffer: the CalcSize error, the
      size mismatch, or the decoded items. */
  function UnpackReference(t: Tables, format: string, data: seq<byte>): Result<seq<Value>, Error>
    requires |format| > 0
  {
    match Items(t, Body(t, format))
    case Err(e) => Err(e)
    case Ok(items) =>
      if SizeOf(t, items) != |data| then Err(SizeMismatch(SizeOf(t, items)))
      else Ok(DecodeFrom(t, OrderOf(t, format), items, data, 0))
  }

  // ----- The loops decode the items -----

  /** With the bytes there, the string loop reads k*w of them and yields
      their text. */
  lemma {:induction false} TextLoopReads(t: Tables, data: seq<byte>, pos: nat, w: nat, k: nat, acc: string)
    requires pos + Span(k, w) <= |data|
    ensures TextLoop(t, data, pos, w, k, acc) == Ok((acc + TextOf(t, data, pos, w, k), pos + Span(k, w)))
    decreases k
  {
    if k == 0 {
      assert acc + "" == acc;
    } else {
      var p := t.parseString(data[pos..pos + w]);
      TextLoopReads(t, data, pos + w, w, k - 1, acc + p);
      assert acc + p + TextOf(t, data, pos + w, w, k - 1) == acc + (p + TextOf(t, data, pos + w, w, k - 1));
    }
  }

  /** With the bytes there, a scalar loop reads count*width of them and
      appends the values that parse. */
  lemma {:induction false} ScalarLoopReads(t: Tables, o: Order, c: char, data: seq<byte>, pos: nat, k: nat, acc: seq<Value>)
    requires pos + Span(k, t.width(c)) <= |data|
    ensures ScalarLoop(t, o, c, data, pos, k, acc) == Ok((acc + ScalarsOf(t, o, c, data, pos, k), pos + Span(k, t.width(c))))
    decreases k
  {
    var w := t.width(c);
    if k == 0 {
      assert acc + [] == acc;
    } else {
      var v := Listed(t.parseValue(data[pos..pos + w], c, o));
      ScalarLoopReads(t, o, c, data, pos + w, k - 1, acc + v);
      assert acc + v + ScalarsOf(t, o, c, data, pos + w, k - 1) == acc + (v + ScalarsOf(t, o, c, data, pos + w, k - 1));
    }
  }

  lemma UnpackItemReads(t: Tables, o: Order, it: Item, data: seq<byte>, pos: nat, values: seq<Value>)
    requires pos + Span(it.count, t.width(it.code)) <= |data|
    ensures UnpackItem(t, o, it, data, pos, values) ==
      Ok((values + DecodeItem(t, o, it, data, pos), pos + Span(it.count, t.width(it.code))))
  {
    if it.code == t.stringCode {
      TextLoopReads(t, data, pos, t.width(it.code), it.count, "");
      assert "" + TextOf(t, data, pos, t.width(it.code), it.count) == TextOf(t, data, pos, t.width(it.code), it.count);
    } else {
      ScalarLoopReads(t, o, it.code, data, pos, it.count, values);
    }
  }

  /** Unpack's walk, item by item. */
  function UnpackItems(t: Tables, o: Order, items: seq<Item>, data: seq<byte>, pos: nat, values: seq<Value>): Result<(seq<Value>, nat), Error>
    decreases |items|
  {
    if items == [] then Ok((values, pos))
    else
      match UnpackItem(t, o, items[0], data, pos, values)
      case Err(e) => Err(e)
      case Ok((vs, next)) => UnpackItems(t, o, items[1..], data, next, vs)
  }

  /** Started with the count of a digit run `r` pending, Unpack's loop over
      `s` does what the walk over the items of `r + s` does. */
  lemma {:induction false} UnpackCharsByItems(t: Tables, o: Order, r: string, s: string, data: seq<byte>, pos: nat, values: seq<Value>)
    requires AllCountDigits(r)
    requires Items(t, r + s).Ok?
    ensures UnpackChars(t, o, s, data, pos, Accumulated(r), values) ==
      UnpackItems(t, o, Items(t, r + s).value, data, pos, values)
    decreases |s|, 1
  {
    if s == [] {
      assert r + s == r;
      AllDigitsHaveNoItems(t, r);
    } else if IsCountDigit(s[0]) {
      UnpackCharsByItemsAtDigit(t, o, r, s, data, pos, values);
    } else {
      UnpackCharsByItemsAtCode(t, o, r, s, data, pos, values);
    }
  }

  lemma {:induction false} UnpackCharsByItemsAtDigit(t: Tables, o: Order, r: string, s: string, data: seq<byte>, pos: nat, values: seq<Value>)
    requires AllCountDigits(r)
    requires s != [] && IsCountDigit(s[0])
    requires Items(t, r + s).Ok?
    ensures UnpackChars(t, o, s, data, pos, Accumulated(r), values) ==
      UnpackItems(t, o, Items(t, r + s).value, data, pos, values)
    decreases |s|, 0
  {
    var r' := r + [s[0]];
    assert UnpackChars(t, o, s, data, pos, Accumulated(r), values) ==
      UnpackChars(t, o, s[1..], data, pos, Accumulated(r'), values) by {
      AccumulatedSnoc(r, s[0]);
    }
    assert r' + s[1..] == r + s;
    assert AllCountDigits(r');
    UnpackCharsByItems(t, o, r', s[1..], data, pos, values);
  }

  lemma {:induction false} UnpackCharsByItemsAtCode(t: Tables, o: Order, r: string, s: string, data: seq<byte>, pos: nat, values: seq<Value>)
    requires AllCountDigits(r)
    requires s != [] && !IsCountDigit(s[0])
    requires Items(t, r + s).Ok?
    ensures UnpackChars(t, o, s, data, pos, Accumulated(r), values) ==
      UnpackItems(t, o, Items(t, r + s).value, data, pos, values)
    decreases |s|, 0
  {
    CountOfAccumulated(r);
    ItemsAfterRun(t, r, s);
    assert [] + s[1..] == s[1..];
    var it := Item(CountOf(r), s[0]);
    var rest := Items(t, s[1..]).value;
    assert Items(t, r + s).value == [it] + rest;
    assert ([it] + rest)[1..] == rest;
    match UnpackItem(t, o, it, data, pos, values) {
      case Ok((vs, next)) =>
        UnpackCharsByItems(t, o, [], s[1..], data, next, vs);
      case Err(_) =>
    }
  }

  /** With the bytes there, the walk decodes every item and moves the
      cursor past their bytes. */
  lemma {:induction false} UnpackItemsReads(t: Tables, o: Order, items: seq<Item>, data: seq<byte>, pos: nat, values: seq<Value>)
    requires pos + SizeOf(t, items) <= |data|
    ensures UnpackItems(t, o, items, data, pos, values) ==
      Ok((values + DecodeFrom(t, o, items, data, pos), pos + SizeOf(t, items)))
    decreases |items|
  {
    if items == [] {
      assert values + [] == values;
    } else {
      var it := items[0];
      var next := pos + Span(it.count, t.width(it.code));
      var here := DecodeItem(t, o, it, data, pos);
      var tail := DecodeFrom(t, o, items[1..], data, next);
      assert UnpackItems(t, o, items, data, pos, values) == UnpackItems(t, o, items[1..], data, next, values + here) by {
        UnpackItemReads(t, o, it, data, pos, values);
      }
      assert UnpackItems(t, o, items[1..], data, next, values + here) ==
        Ok((values + here + tail, next + SizeOf(t, items[1..]))) by {
        UnpackItemsReads(t, o, items[1..], data, next, values + here);
      }
      assert DecodeFrom(t, o, items, data, pos) == here + tail by {
        DecodeFromStep(t, o, items, data, pos);
      }
      assert values + here + tail == values + (here + tail);
    }
  }

  lemma DecodeFromStep(t: Tables, o: Order, items: seq<Item>, data: seq<byte>, pos: nat)
    requires items != [] && pos + SizeOf(t, items) <= |data|
    ensures DecodeFrom(t, o, items, data, pos) ==
      DecodeItem(t, o, items[0], data, pos) + DecodeFrom(t, o, items[1..], data, pos + Span(items[0].count, t.width(items[0].code)))
  {
  }

  /** Once the size check has passed, Unpack's loop decodes exactly what
      UnpackReference says and reads every byte of the buffer: readValue's
      EOF branch and the bad-char branch are unreachable. */
  lemma UnpackCharsIsReference(t: Tables, format: string, data: seq<byte>)
    requires |format| > 0
    requires SizeSpec(t, format) == Ok(|data|)
    ensures UnpackReference(t, format, data).Ok?
    ensures UnpackChars(t, OrderOf(t, format), Body(t, format), data, 0, 0, []) ==
      Ok((UnpackReference(t, format, data).value, |data|))
  {
    var body := Body(t, format);
    assert [] + body == body;
    UnpackCharsByItems(t, OrderOf(t, format), [], body, data, 0, []);
    UnpackItemsReads(t, OrderOf(t, format), Items(t, body).value, data, 0, []);
    assert [] + DecodeFrom(t, OrderOf(t, format), Items(t, body).value, data, 0) ==
      DecodeFrom(t, OrderOf(t, format), Items(t, body).value, data, 0);
  }

  // ----- Unpack and UnpackFrom -----

  /** The loop of a string item: `num` readValue calls, each chunk turned
      into text and appended. */
  method ReadText(t: Tables, reader: Reader, c: char, num: nat) returns (text: string, err: Option<Error>)
    requires reader.Valid()
    modifies reader
    ensures reader.Valid()
    ensures TextLoop(t, reader.data, old(reader.pos), t.width(c), num, "") ==
      if err.Some? then Err(err.value) else Ok((text, reader.pos))
  {
    ghost var pos0 := reader.pos;
    text := "";
    var j := 0;
    while j < num
      invariant 0 <= j <= num
      invariant reader.Valid()
      invariant TextLoop(t, reader.data, pos0, t.width(c), num, "") == TextLoop(t, reader.data, reader.pos, t.width(c), num - j, text)
    {
      ghost var p := reader.pos;
      var raw, e := ReadValue(t, reader, c);
      if e.Some? {
        return text, e;
      }
      assert raw == reader.data[p..p + t.width(c)];
      text := text + t.parseString(raw);
      j := j + 1;
    }
    return text, None;
  }

  /** The loop of a scalar item: `num` readValue calls, each chunk parsed
      and appended when parseValue gives a value. */
  method ReadScalars(t: Tables, o: Order, reader: Reader, c: char, num: nat, values: seq<Value>)
      returns (vs: seq<Value>, err: Option<Error>)
    requires reader.Valid()
    modifies reader
    ensures reader.Valid()
    ensures ScalarLoop(t, o, c, reader.data, old(reader.pos), num, values) ==
      if err.Some? then Err(err.value) else Ok((vs, reader.pos))
  {
    ghost var pos0 := reader.pos;
    vs := values;
    var j := 0;
    while j < num
      invariant 0 <= j <= num
      invariant reader.Valid()
      invariant ScalarLoop(t, o, c, reader.data, pos0, num, values) == ScalarLoop(t, o, c, reader.data, reader.pos, num - j, vs)
    {
      ghost var p := reader.pos;
      var raw, e := ReadValue(t, reader, c);
      if e.Some? {
        return vs, e;
      }
      assert raw == reader.data[p..p + t.width(c)];
      var value := t.parseValue(raw, c, o);
      ghost var before := vs;
      if value.Some? {
        vs := vs + [value.value];
      }
      assert vs == before + Listed(value);
      j := j + 1;
    }
    return vs, None;
  }

  /** The character loop of Unpack over the format body, reading from
      `reader`: Unpack's error, if any, or the values it collects. */
  method UnpackLoop(t: Tables, order: Order, body: string, reader: Reader) returns (values: seq<Value>, err: Option<Error>)
    requires reader.Valid()
    modifies reader
    ensures reader.Valid()
    ensures UnpackChars(t, order, body, reader.data, old(reader.pos), 0, []) ==
      if err.Some? then Err(err.value) else Ok((values, reader.pos))
  {
    ghost var start := reader.pos;
    var num: nat := 0;
    values := [];
    var i := 0;
    while i < |body|
      invariant 0 <= i <= |body|
      invariant reader.Valid()
      invariant UnpackChars(t, order, body, reader.data, start, 0, []) == UnpackChars(t, order, body[i..], reader.data, reader.pos, num, values)
    {
      var c := body[i];
      assert body[i..][1..] == body[i + 1..];
      ghost var pending := num;
      var add := AddNum(num, c);
      if add > 0 {
        num := num + add;
        i := i + 1;
        continue;
      }
      if num == 0 {
        num := 1;
      }
      if c !in t.codes {
        return values, Some(BadChar(c));
      }
      ghost var pos0, values0 := reader.pos, values;
      assert UnpackChars(t, order, body[i..], reader.data, pos0, pending, values) ==
        match UnpackItem(t, order, Item(num, c), reader.data, pos0, values)
        case Err(e) => Err(e)
        case Ok((vs, next)) => UnpackChars(t, order, body[i + 1..], reader.data, next, 0, vs);
      var e;
      if c == t.stringCode {
        var text;
        text, e := ReadText(t, reader, c, num);
        if e.Some? {
          return values, e;
        }
        values := values + [Text(text)];
      } else {
        values, e := ReadScalars(t, order, reader, c, num, values);
        if e.Some? {
          return values, e;
        }
      }
      num := 0;
      i := i + 1;
    }
    return values, None;
  }

  /** Unpack(format, buffer): the values, or the first error. After the size
      check the loop's EOF and bad-character errors cannot occur. */
  method Unpack(t: Tables, format: string, buffer: seq<byte>) returns (r: Result<seq<Value>, Error>)
    requires |format| > 0
    ensures r == UnpackReference(t, format, buffer)
  {
    var check := CheckFormatAndBufSize(t, format, |buffer|);
    if check.Some? {
      return Err(check.value);
    }
    var reader := new Reader(buffer);
    var order := Native;
    var body := format;
    if format[0] in t.prefixes {
      order := Prefixed(format[0]);
      body := format[1..];
    }
    UnpackCharsIsReference(t, format, buffer);
    var values, e := UnpackLoop(t, order, body, reader);
    match e {
      case Some(err) =>
        assert false;
        return Err(err);
      case None =>
        return Ok(values);
    }
  }

  /** UnpackFrom(format, buffer, offset): the out-of-range error when the
      offset is not inside the buffer, else Unpack of the rest of the buffer.
      A negative offset would panic in the slice and is excluded. */
  method UnpackFrom(t: Tables, format: string, buffer: seq<byte>, offset: int) returns (r: Result<seq<Value>, Error>)
    requires offset >= 0
    requires offset < |buffer| ==> |format| > 0
    ensures offset >= |buffer| ==> r == Err(OffsetOutOfRange)
    ensures offset < |buffer| ==> r == UnpackReference(t, format, buffer[offset..])
  {
    if offset >= |buffer| {
      return Err(OffsetOutOfRange);
    }
    r := Unpack(t, format, buffer[offset..]);
  }
}

module UnpackProperties {
  import opened Types
  import opened Format
  import opened Packer
  import PackProperties
  import opened Unpacker

  /** Unpack reports the size mismatch exactly when the format is valid and
      its size differs from the buffer's length, and names that size. */
  lemma UnpackRejectsWrongSize(t: Tables, format: string, data: seq<byte>)
    requires |format| > 0
    ensures var r := UnpackReference(t, format, data);
      (r.Err? && r.error.SizeMismatch?) <==> (SizeSpec(t, format).Ok? && SizeSpec(t, format).value != |data|)
    ensures SizeSpec(t, format).Ok? && SizeSpec(t, format).value != |data| ==>
      UnpackReference(t, format, data) == Err(SizeMismatch(SizeSpec(t, format).value))
  {
  }

  /** Unpack fails only in its size check: with a valid format of the
      buffer's size it always returns values; its errors are CalcSize's bad
      char or the size mismatch, never readValue's EOF. */
  lemma UnpackFailsOnlyInTheSizeCheck(t: Tables, format: string, data: seq<byte>)
    requires |format| > 0
    ensures UnpackReference(t, format, data).Ok? <==> SizeSpec(t, format) == Ok(|data|)
    ensures var r := UnpackReference(t, format, data);
      r.Err? ==> r.error.BadChar? || r.error.SizeMismatch?
  {
  }

  /** Every chunk of every scalar item parses to a value. */
  predicate ScalarsParse(t: Tables, o: Order, c: char, data: seq<byte>, pos: nat, k: nat)
    requires pos + Span(k, t.width(c)) <= |data|
    decreases k
  {
    var w := t.width(c);
    k == 0 || (t.parseValue(data[pos..pos + w], c, o).Some? && ScalarsParse(t, o, c, data, pos + w, k - 1))
  }

  predicate ItemsParse(t: Tables, o: Order, items: seq<Item>, data: seq<byte>, pos: nat)
    requires pos + SizeOf(t, items) <= |data|
    decreases |items|
  {
    items == [] ||
    var it := items[0];
    (it.code == t.stringCode || ScalarsParse(t, o, it.code, data, pos, it.count)) &&
    ItemsParse(t, o, items[1..], data, pos + Span(it.count, t.width(it.code)))
  }

  lemma {:induction false} ScalarsCount(t: Tables, o: Order, c: char, data: seq<byte>, pos: nat, k: nat)
    requires pos + Span(k, t.width(c)) <= |data|
    ensures |ScalarsOf(t, o, c, data, pos, k)| <= k
    ensures |ScalarsOf(t, o, c, data, pos, k)| == k <==> ScalarsParse(t, o, c, data, pos, k)
    decreases k
  {
    if k > 0 {
      ScalarsCount(t, o, c, data, pos + t.width(c), k - 1);
    }
  }

  /** Unpack yields at most one value per argument Pack consumes for the
      same format: exactly one per string item, and one per scalar whose
      bytes parse; exactly as many when every scalar parses. */
  lemma {:induction false} DecodedCount(t: Tables, o: Order, items: seq<Item>, data: seq<byte>, pos: nat)
    requires pos + SizeOf(t, items) <= |data|
    ensures |DecodeFrom(t, o, items, data, pos)| <= ArgsNeeded(t, items)
    ensures |DecodeFrom(t, o, items, data, pos)| == ArgsNeeded(t, items) <==> ItemsParse(t, o, items, data, pos)
    decreases |items|
  {
    if items != [] {
      var it := items[0];
      if it.code != t.stringCode {
        ScalarsCount(t, o, it.code, data, pos, it.count);
      }
      DecodedCount(t, o, items[1..], data, pos + Span(it.count, t.width(it.code)));
    }
  }

  /** UnpackFrom needs the rest of the buffer from the offset to be exactly
      the format's size, not merely at least that size. */
  lemma UnpackFromNeedsExactRemainder(t: Tables, format: string, data: seq<byte>, offset: nat)
    requires |format| > 0 && offset < |data|
    requires SizeSpec(t, format).Ok?
    ensures UnpackReference(t, format, data[offset..]).Ok? <==> |data| - offset == SizeSpec(t, format).value
  {
  }

  lemma {:induction false} EncodeAllLength(t: Tables, o: Order, c: char, vs: seq<Value>)
    requires forall v, c', o' :: t.buildValue(v, c', o').Some? ==> |t.buildValue(v, c', o').value| == t.width(c')
    ensures EncodeAll(t, o, c, vs).Some? ==> |EncodeAll(t, o, c, vs).value| == Span(|vs|, t.width(c))
    decreases |vs|
  {
    if vs != [] {
      EncodeAllLength(t, o, c, vs[1..]);
    }
  }

  predicate NoStringItems(t: Tables, items: seq<Item>) {
    forall i :: 0 <= i < |items| ==> items[i].code != t.stringCode
  }

  lemma {:induction false} EncodeItemsLength(t: Tables, o: Order, items: seq<Item>, args: seq<Value>)
    requires forall v, c, o' :: t.buildValue(v, c, o').Some? ==> |t.buildValue(v, c, o').value| == t.width(c)
    requires NoStringItems(t, items)
    ensures EncodeItems(t, o, items, args).Some? ==> |EncodeItems(t, o, items, args).value| == SizeOf(t, items)
    decreases |items|
  {
    if items != [] && EncodeItems(t, o, items, args).Some? {
      var k := ArgsOf(t, items[0]);
      assert items[0].code != t.stringCode;
      EncodeAllLength(t, o, items[0].code, args[..k]);
      NoStringItemsTail(t, items);
      EncodeItemsLength(t, o, items[1..], args[k..]);
    }
  }

  lemma NoStringItemsTail(t: Tables, items: seq<Item>)
    requires items != [] && NoStringItems(t, items)
    ensures items[0].code != t.stringCode && NoStringItems(t, items[1..])
  {
    forall i | 0 <= i < |items[1..]| ensures items[1..][i].code != t.stringCode {
      assert items[1..][i] == items[i + 1];
    }
  }

  /** When every scalar encoding is width bytes long, a successful Pack of a
      format without string items gives exactly CalcSize bytes, the length
      Unpack then demands. */
  lemma PackedLengthIsCalcSize(t: Tables, format: string, args: seq<Value>)
    requires |format| > 0
    requires forall v, c, o :: t.buildValue(v, c, o).Some? ==> |t.buildValue(v, c, o).value| == t.width(c)
    requires Items(t, Body(t, format)).Ok? && NoStringItems(t, Items(t, Body(t, format)).value)
    ensures var run := PackReference(t, format, args);
      run.Returned? && run.packed.err == None ==>
        SizeSpec(t, format) == Ok(|run.packed.bytes|)
  {
    PackProperties.PackSucceeds(t, format, args);
    EncodeItemsLength(t, OrderOf(t, format), Items(t, Body(t, format)).value, args);
  }

  /** Every bytes buildValue produces are width(c) long and parse back under
      the same code and order to the value they were built from. */
  ghost predicate BuildParseInverse(t: Tables) {
    (forall v, c, o :: t.buildValue(v, c, o).Some? ==> |t.buildValue(v, c, o).value| == t.width(c)) &&
    forall v, c, o {:trigger t.parseValue(t.buildValue(v, c, o).value, c, o)} ::
      t.buildValue(v, c, o).Some? ==> t.parseValue(t.buildValue(v, c, o).value, c, o) == Some(v)
  }

  /** Where two byte strings sit one after the other, each sits in its place. */
  lemma SliceSplits(data: seq<byte>, pos: nat, a: seq<byte>, b: seq<byte>)
    requires pos + |a + b| <= |data| && data[pos..pos + |a + b|] == a + b
    ensures data[pos..pos + |a|] == a && data[pos + |a|..pos + |a| + |b|] == b
  {
    assert data[pos..pos + |a|] == data[pos..pos + |a + b|][..|a|];
    assert data[pos + |a|..pos + |a| + |b|] == data[pos..pos + |a + b|][|a|..];
  }

  /** The scalars of one item read back from where their encoding sits. */
  lemma {:induction false} ScalarsRoundTrip(t: Tables, o: Order, c: char, vs: seq<Value>, data: seq<byte>, pos: nat, k: nat, e: seq<byte>)
    requires BuildParseInverse(t) && |vs| == k
    requires EncodeAll(t, o, c, vs) == Some(e)
    requires pos + |e| <= |data| && data[pos..pos + |e|] == e
    ensures pos + Span(k, t.width(c)) <= |data| && ScalarsOf(t, o, c, data, pos, k) == vs
    decreases k, 1
  {
    if k > 0 {
      var b := t.buildValue(vs[0], c, o).value;
      var rest := EncodeAll(t, o, c, vs[1..]).value;
      assert e == b + rest && |b| == t.width(c);
      SliceSplits(data, pos, b, rest);
      ScalarsRoundTripStep(t, o, c, vs, data, pos, k, b, rest);
    }
  }

  /** The step case of `ScalarsRoundTrip`: the first value sits in the first
      width bytes and the rest after them. */
  lemma {:induction false} ScalarsRoundTripStep(t: Tables, o: Order, c: char, vs: seq<Value>, data: seq<byte>, pos: nat, k: nat, b: seq<byte>, rest: seq<byte>)
    requires BuildParseInverse(t) && |vs| == k && k > 0
    requires t.buildValue(vs[0], c, o) == Some(b) && EncodeAll(t, o, c, vs[1..]) == Some(rest)
    requires pos + |b| + |rest| <= |data| && data[pos..pos + |b|] == b && data[pos + |b|..pos + |b| + |rest|] == rest
    ensures pos + Span(k, t.width(c)) <= |data| && ScalarsOf(t, o, c, data, pos, k) == vs
    decreases k, 0
  {
    var w := t.width(c);
    assert |b| == w;
    ScalarsRoundTrip(t, o, c, vs[1..], data, pos + w, k - 1, rest);
    assert Listed(t.parseValue(data[pos..pos + w], c, o)) == [vs[0]];
    ScalarsOfStep(t, o, c, data, pos, k);
    assert [vs[0]] + vs[1..] == vs;
  }

  lemma ScalarsOfStep(t: Tables, o: Order, c: char, data: seq<byte>, pos: nat, k: nat)
    requires k > 0 && pos + Span(k, t.width(c)) <= |data|
    ensures ScalarsOf(t, o, c, data, pos, k) ==
      Listed(t.parseValue(data[pos..pos + t.width(c)], c, o)) + ScalarsOf(t, o, c, data, pos + t.width(c), k - 1)
  {
  }

  /** Items without strings read back, from where their encoding sits, the
      arguments they were encoded from. */
  lemma {:induction false} ItemsRoundTrip(t: Tables, o: Order, items: seq<Item>, args: seq<Value>, data: seq<byte>, pos: nat, e: seq<byte>)
    requires BuildParseInverse(t) && NoStringItems(t, items)
    requires ArgsNeeded(t, items) == |args| && EncodeItems(t, o, items, args) == Some(e)
    requires pos + |e| <= |data| && data[pos..pos + |e|] == e
    ensures pos + SizeOf(t, items) <= |data| && DecodeFrom(t, o, items, data, pos) == args
    decreases |items|, 1
  {
    if items != [] {
      NoStringItemsTail(t, items);
      var k := items[0].count;
      assert k == ArgsOf(t, items[0]) && ArgsNeeded(t, items) == k + ArgsNeeded(t, items[1..]);
      PackProperties.EncodeItemsStep(t, o, items, args);
      var d := EncodeAll(t, o, items[0].code, args[..k]).value;
      var e' := EncodeItems(t, o, items[1..], args[k..]).value;
      assert e == d + e';
      SliceSplits(data, pos, d, e');
      assert |d| == Span(k, t.width(items[0].code)) && DecodeItem(t, o, items[0], data, pos) == args[..k] by {
        EncodeAllLength(t, o, items[0].code, args[..k]);
        ScalarsRoundTrip(t, o, items[0].code, args[..k], data, pos, k, d);
      }
      ItemsRoundTripStep(t, o, items, args, data, pos, e');
    }
  }

  /** The step case of `ItemsRoundTrip`: the first item has decoded to its
      arguments, and the rest's bytes `e'` follow it. */
  lemma {:induction false} ItemsRoundTripStep(t: Tables, o: Order, items: seq<Item>, args: seq<Value>, data: seq<byte>, pos: nat, e': seq<byte>)
    requires items != [] && BuildParseInverse(t) && NoStringItems(t, items[1..])
    requires items[0].count <= |args| && ArgsNeeded(t, items[1..]) == |args| - items[0].count
    requires pos + Span(items[0].count, t.width(items[0].code)) <= |data|
    requires DecodeItem(t, o, items[0], data, pos) == args[..items[0].count]
    requires EncodeItems(t, o, items[1..], args[items[0].count..]) == Some(e')
    requires var next := pos + Span(items[0].count, t.width(items[0].code));
      next + |e'| <= |data| && data[next..next + |e'|] == e'
    ensures pos + SizeOf(t, items) <= |data| && DecodeFrom(t, o, items, data, pos) == args
    decreases |items|, 0
  {
    var k := items[0].count;
    TakeDropJoin(args, k);
    var next := pos + Span(k, t.width(items[0].code));
    ItemsRoundTrip(t, o, items[1..], args[k..], data, next, e');
    DecodeFromCons(t, o, items, data, pos, args[..k], args[k..], args);
  }

  lemma TakeDropJoin<T>(s: seq<T>, k: nat)
    requires k <= |s|
    ensures s[..k] + s[k..] == s
  {
  }

  /** The first item's values followed by the rest's are the items' values. */
  lemma DecodeFromCons(t: Tables, o: Order, items: seq<Item>, data: seq<byte>, pos: nat, a: seq<Value>, b: seq<Value>, r: seq<Value>)
    requires items != [] && a + b == r
    requires pos + Span(items[0].count, t.width(items[0].code)) + SizeOf(t, items[1..]) <= |data|
    requires DecodeItem(t, o, items[0], data, pos) == a
    requires DecodeFrom(t, o, items[1..], data, pos + Span(items[0].count, t.width(items[0].code))) == b
    ensures pos + SizeOf(t, items) <= |data| && DecodeFrom(t, o, items, data, pos) == r
  {
    DecodeFromStep(t, o, items, data, pos);
  }

  /** Round trip: when every scalar encoding is width bytes long and parses
      back to its value, Unpack of the bytes Pack builds for a format without
      string items gives back the arguments. */
  lemma RoundTrip(t: Tables, format: string, args: seq<Value>, bytes: seq<byte>)
    requires |format| > 0 && BuildParseInverse(t)
    requires Items(t, Body(t, format)).Ok? && NoStringItems(t, Items(t, Body(t, format)).value)
    requires PackReference(t, format, args) == Returned(Packed(bytes, None))
    ensures UnpackReference(t, format, bytes) == Ok(args)
  {
    var o, items := OrderOf(t, format), Items(t, Body(t, format)).value;
    PackProperties.PackSucceeds(t, format, args);
    EncodeItemsLength(t, o, items, args);
    assert bytes[0..|bytes|] == bytes;
    ItemsRoundTrip(t, o, items, args, bytes, 0, bytes);
  }
}
