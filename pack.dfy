/** Pack and PackInto.

    `PackChars` is the character loop of Pack; `PackItems` is the same walk
    over the parsed items, and `EncodeItems` is the plain encoding of items
    from the arguments they consume. `PackCharsByItems` ties the loop to the
    items, and the lemmas after it state what Pack promises in terms of
    `ArgsNeeded` and `EncodeItems`. */
module Packer {
  import opened Types
  import opened Format

  /** What Pack returns: the buffer (possibly partial) and the error, if any. */
  datatype Packed = Packed(bytes: seq<byte>, err: Option<Error>)

  /** A run of Pack either returns, or panics on the unchecked `intf[index]`
      of its repeat loop. */
  datatype PackRun = Returned(packed: Packed) | Panicked

  /** The repeat loop of one non-string item. */
  datatype Repeated = Encoded(index: nat, bytes: seq<byte>) | Refused | Overrun

  function Repeat(t: Tables, o: Order, c: char, args: seq<Value>, index: nat, k: nat, buf: seq<byte>): Repeated
    decreases k
  {
    if k == 0 then Encoded(index, buf)
    else if index >= |args| then Overrun
    else
      match t.buildValue(args[index], c, o)
      case None => Refused
      case Some(data) => Repeat(t, o, c, args, index + 1, k - 1, buf + data)
  }

  /** One item packed from argument `index` on: Continue with the next
      argument index and the grown buffer, or Stop with what Pack returns. */
  datatype Step = Continue(index: nat, bytes: seq<byte>) | Stop(run: PackRun)

  function PackItem(t: Tables, o: Order, it: Item, args: seq<Value>, index: nat, buf: seq<byte>): Step
    requires index < |args|
  {
    if it.code == t.stringCode then
      match args[index]
      case Text(v) => Continue(index + 1, buf + t.buildString(v))
      case _ => Stop(Returned(Packed([], Some(NotBytes))))
    else
      match Repeat(t, o, it.code, args, index, it.count, buf)
      case Overrun => Stop(Panicked)
      case Refused => Stop(Returned(Packed([], Some(NotA(it.code)))))
      case Encoded(next, out) => Continue(next, out)
  }

  /** The character loop of Pack, run from the given state, followed by the
      extra-items check. */
  function PackChars(t: Tables, o: Order, s: string, args: seq<Value>, index: nat, num: nat, buf: seq<byte>): PackRun
    decreases |s|
  {
    if s == [] then
      Returned(if |args| > index then Packed(buf, Some(ExtraItems(|args| - index))) else Packed(buf, None))
    else if index + 1 > |args| then
      Returned(Packed(buf, Some(IndexError)))
    else
      var add := AddNum(num, s[0]);
      if add > 0 then PackChars(t, o, s[1..], args, index, num + add, buf)
      else
        var n := if num == 0 then 1 else num;
        if s[0] !in t.codes then Returned(Packed([], Some(BadChar(s[0]))))
        else
          match PackItem(t, o, Item(n, s[0]), args, index, buf)
          case Stop(run) => run
          case Continue(next, out) => PackChars(t, o, s[1..], args, next, 0, out)
  }

  /** Pack's walk, item by item: the argument check made before each
      character becomes one check before each item, plus one before a
      trailing digit run. */
  function PackItems(t: Tables, o: Order, items: seq<Item>, trailing: bool, args: seq<Value>, index: nat, buf: seq<byte>): PackRun
    decreases |items|
  {
    if index >= |args| && (items != [] || trailing) then
      Returned(Packed(buf, Some(IndexError)))
    else if items == [] then
      Returned(if |args| > index then Packed(buf, Some(ExtraItems(|args| - index))) else Packed(buf, None))
    else
      match PackItem(t, o, items[0], args, index, buf)
      case Stop(run) => run
      case Continue(next, out) => PackItems(t, o, items[1..], trailing, args, next, out)
  }

  /** What Pack does with a format: its CalcSize error, or the walk over its items. */
  function PackReference(t: Tables, format: string, args: seq<Value>): PackRun
    requires |format| > 0
  {
    var body := Body(t, format);
    match Items(t, body)
    case Err(e) => Returned(Packed([], Some(e)))
    case Ok(items) => PackItems(t, OrderOf(t, format), items, TrailingDigits(body), args, 0, [])
  }

  // ----- The encoding, independently of the loop -----

  /** How many arguments an item consumes: one for a string, whatever its
      count; `count` for any other code. */
  function ArgsOf(t: Tables, it: Item): nat {
    if it.code == t.stringCode then 1 else it.count
  }

  function ArgsNeeded(t: Tables, items: seq<Item>): nat {
    if items == [] then 0 else ArgsOf(t, items[0]) + ArgsNeeded(t, items[1..])
  }

  /** The bytes of each value in turn, or None if buildValue refuses one. */
  function EncodeAll(t: Tables, o: Order, c: char, vs: seq<Value>): Option<seq<byte>> {
    if vs == [] then Some([])
    else
      match t.buildValue(vs[0], c, o)
      case None => None
      case Some(b) =>
        match EncodeAll(t, o, c, vs[1..])
        case None => None
        case Some(rest) => Some(b + rest)
  }

  function EncodeItem(t: Tables, o: Order, it: Item, vs: seq<Value>): Option<seq<byte>>
    requires |vs| == ArgsOf(t, it)
  {
    if it.code == t.stringCode then
      if vs[0].Text? then Some(t.buildString(vs[0].s)) else None
    else
      EncodeAll(t, o, it.code, vs)
  }

  /** The items encoded one after the other, each from the arguments it
      consumes; None if the arguments run out or one is refused. */
  function EncodeItems(t: Tables, o: Order, items: seq<Item>, args: seq<Value>): (r: Option<seq<byte>>)
    ensures r.Some? ==> ArgsNeeded(t, items) <= |args|
    decreases |items|
  {
    if items == [] then Some([])
    else
      var k := ArgsOf(t, items[0]);
      if |args| < k then None
      else
        match EncodeItem(t, o, items[0], args[..k])
        case None => None
        case Some(b) =>
          match EncodeItems(t, o, items[1..], args[k..])
          case None => None
          case Some(rest) => Some(b + rest)
  }

  // ----- Pack -----

  /** The repeat loop of Pack for one non-string code: `num` values from
      argument `index` on, each encoded and appended to `buffer`. */
  method PackRepeated(t: Tables, order: Order, c: char, args: seq<Value>, index: nat, num: nat, buffer: seq<byte>)
      returns (next: nat, out: seq<byte>, refused: bool)
    requires !Repeat(t, order, c, args, index, num, buffer).Overrun?
    ensures Repeat(t, order, c, args, index, num, buffer) == if refused then Refused else Encoded(next, out)
  {
    next, out := index, buffer;
    var j := 0;
    while j < num
      invariant 0 <= j <= num
      invariant Repeat(t, order, c, args, index, num, buffer) == Repeat(t, order, c, args, next, num - j, out)
    {
      var data := t.buildValue(args[next], c, order);
      if data.None? {
        return next, out, true;
      }
      out := out + data.value;
      next := next + 1;
      j := j + 1;
    }
    return next, out, false;
  }

  /** Pack(format, intf...). The repeat loop reads `intf[index]` without a
      bounds check, so a run that would panic there is excluded. */
  method Pack(t: Tables, format: string, args: seq<Value>) returns (buffer: seq<byte>, err: Option<Error>)
    requires |format| > 0
    requires !PackReference(t, format, args).Panicked?
    ensures PackReference(t, format, args) == Returned(Packed(buffer, err))
  {
    var size := CalcSize(t, format);
    if size.Err? {
      return [], Some(size.error);
    }
    var order := Native;
    var body := format;
    if format[0] in t.prefixes {
      order := Prefixed(format[0]);
      body := format[1..];
    }
    PackCharsIsReference(t, format, args);
    buffer, err := PackLoop(t, order, body, args);
  }

  /** The character loop of Pack over a format body, with the extra-items
      check after it. */
  method PackLoop(t: Tables, order: Order, body: string, args: seq<Value>) returns (buffer: seq<byte>, err: Option<Error>)
    requires !PackChars(t, order, body, args, 0, 0, []).Panicked?
    ensures PackChars(t, order, body, args, 0, 0, []) == Returned(Packed(buffer, err))
  {
    var num: nat := 0;
    var index: nat := 0;
    buffer := [];
    var i := 0;
    while i < |body|
      invariant 0 <= i <= |body|
      invariant PackChars(t, order, body, args, 0, 0, []) == PackChars(t, order, body[i..], args, index, num, buffer)
    {
      if index + 1 > |args| {
        return buffer, Some(IndexError);
      }
      var c := body[i];
      assert body[i..][1..] == body[i + 1..];
      ghost var pending := num;
      var add := AddNum(num, c);
      if add > 0 {
        assert PackChars(t, order, body[i..], args, index, num, buffer) ==
          PackChars(t, order, body[i + 1..], args, index, num + add, buffer);
        num := num + add;
        i := i + 1;
        continue;
      }
      if num == 0 {
        num := 1;
      }
      if c !in t.codes {
        return [], Some(BadChar(c));
      }
      if c == t.stringCode {
        if !args[index].Text? {
          return [], Some(NotBytes);
        }
        assert PackChars(t, order, body[i..], args, index, pending, buffer) ==
          PackChars(t, order, body[i + 1..], args, index + 1, 0, buffer + t.buildString(args[index].s));
        buffer := buffer + t.buildString(args[index].s);
        num := 0;
        index := index + 1;
        i := i + 1;
        continue;
      }
      assert PackChars(t, order, body[i..], args, index, pending, buffer) ==
        match PackItem(t, order, Item(num, c), args, index, buffer)
        case Stop(run) => run
        case Continue(next, out) => PackChars(t, order, body[i + 1..], args, next, 0, out);
      var refused;
      ghost var index0, buffer0 := index, buffer;
      index, buffer, refused := PackRepeated(t, order, c, args, index, num, buffer);
      if refused {
        return [], Some(NotA(c));
      }
      assert PackChars(t, order, body[i..], args, index0, pending, buffer0) ==
        PackChars(t, order, body[i + 1..], args, index, 0, buffer);
      num := 0;
      i := i + 1;
    }
    if |args| > index {
      return buffer, Some(ExtraItems(|args| - index));
    }
    return buffer, None;
  }

  // ----- PackInto -----

  function Zeros(n: nat): (z: seq<byte>)
    ensures |z| == n && forall i :: 0 <= i < n ==> z[i] == 0
  {
    seq(n, _ => 0)
  }

  /** `buffer` with `part` written at `offset`, first grown with zero bytes
      to offset + |part| when it is shorter. */
  function Overlaid(buffer: seq<byte>, offset: nat, part: seq<byte>): (r: seq<byte>)
    ensures |r| == if offset + |part| > |buffer| then offset + |part| else |buffer|
    ensures forall i :: 0 <= i < |part| ==> r[offset + i] == part[i]
    ensures forall i :: 0 <= i < |r| && !(offset <= i < offset + |part|) ==>
      r[i] == if i < |buffer| then buffer[i] else 0
  {
    var grown := if offset + |part| > |buffer| then buffer + Zeros(offset + |part| - |buffer|) else buffer;
    grown[..offset] + part + grown[offset + |part|..]
  }

  /** PackInto(format, buffer, offset, intf...): Pack, then write the bytes
      into `buffer` at `offset`, in place when they fit and in a fresh, zero
      padded copy when they do not. Any Pack error, "extra items" included,
      is returned with a null buffer. */
  method PackInto(t: Tables, format: string, buffer: array<byte>, offset: int, args: seq<Value>)
      returns (r: array?<byte>, err: Option<Error>)
    requires |format| > 0
    requires !PackReference(t, format, args).Panicked?
    modifies buffer
    ensures var p := PackReference(t, format, args).packed;
      if p.err.Some? then r == null && err == p.err && unchanged(buffer)
      else if offset < 0 then r == null && err == Some(NegativeOffset) && unchanged(buffer)
      else
        r != null && err == None && r[..] == Overlaid(old(buffer[..]), offset, p.bytes) &&
        (offset + |p.bytes| <= buffer.Length ==> r == buffer) &&
        (offset + |p.bytes| > buffer.Length ==> fresh(r) && unchanged(buffer))
  {
    var part, e := Pack(t, format, args);
    if e.Some? {
      return null, e;
    }
    if offset < 0 {
      return null, Some(NegativeOffset);
    }
    var target := buffer;
    if offset + |part| > buffer.Length {
      target := Grown(buffer, offset + |part|);
    }
    WriteAt(target, offset, part);
    return target, None;
  }

  /** A fresh copy of `buffer`, padded with zero bytes to `size`. */
  method Grown(buffer: array<byte>, size: nat) returns (target: array<byte>)
    requires size > buffer.Length
    ensures fresh(target) && target[..] == buffer[..] + Zeros(size - buffer.Length)
  {
    target := new byte[size](_ => 0);
    var i := 0;
    while i < buffer.Length
      invariant 0 <= i <= buffer.Length
      invariant forall j :: 0 <= j < size ==> target[j] == if j < i then buffer[j] else 0
      modifies target
    {
      target[i] := buffer[i];
      i := i + 1;
    }
    assert target[..] == buffer[..] + Zeros(size - buffer.Length);
  }

  /** Writes `part` into `target` at `offset`, leaving the other bytes. */
  method WriteAt(target: array<byte>, offset: nat, part: seq<byte>)
    requires offset + |part| <= target.Length
    modifies target
    ensures target[..] == old(target[..])[..offset] + part + old(target[..])[offset + |part|..]
  {
    var i := 0;
    while i < |part|
      invariant 0 <= i <= |part|
      invariant forall j :: 0 <= j < target.Length ==>
        target[j] == if offset <= j < offset + i then part[j - offset] else old(target[j])
      modifies target
    {
      target[offset + i] := part[i];
      i := i + 1;
    }
    ghost var want := old(target[..])[..offset] + part + old(target[..])[offset + |part|..];
    forall j | 0 <= j < target.Length
      ensures target[j] == want[j]
    {
      if j < offset {
        assert want[j] == old(target[j]);
      } else if j < offset + |part| {
        assert want[j] == part[j - offset];
      } else {
        assert want[j] == old(target[j]);
      }
    }
    assert target[..] == want;
  }

  // ----- The loop walks the items -----

  /** Started with the count of a digit run `r` pending, Pack's loop over `s`
      does what the walk over the items of `r + s` does. */
  lemma {:induction false} PackCharsByItems(t: Tables, o: Order, r: string, s: string, args: seq<Value>, index: nat, buf: seq<byte>)
    requires AllCountDigits(r)
    requires r != [] ==> index < |args|
    requires Items(t, r + s).Ok?
    ensures PackChars(t, o, s, args, index, Accumulated(r), buf) ==
      PackItems(t, o, Items(t, r + s).value, TrailingDigits(r + s), args, index, buf)
    decreases |s|, 2
  {
    if s == [] {
      assert r + s == r;
      AllDigitsHaveNoItems(t, r);
    } else if index >= |args| {
      assert r + s == s;
      if RunLength(s) == |s| {
        assert s[..|s|] == s;
      }
    } else if IsCountDigit(s[0]) {
      PackCharsByItemsAtDigit(t, o, r, s, args, index, buf);
    } else {
      PackCharsByItemsAtCode(t, o, r, s, args, index, buf);
    }
  }

  lemma {:induction false} PackCharsByItemsAtDigit(t: Tables, o: Order, r: string, s: string, args: seq<Value>, index: nat, buf: seq<byte>)
    requires AllCountDigits(r)
    requires s != [] && IsCountDigit(s[0]) && index < |args|
    requires Items(t, r + s).Ok?
    ensures PackChars(t, o, s, args, index, Accumulated(r), buf) ==
      PackItems(t, o, Items(t, r + s).value, TrailingDigits(r + s), args, index, buf)
    decreases |s|, 0
  {
    var r' := r + [s[0]];
    var n := Accumulated(r);
    AccumulatedSnoc(r, s[0]);
    assert PackChars(t, o, s, args, index, n, buf) == PackChars(t, o, s[1..], args, index, Accumulated(r'), buf);
    assert r' + s[1..] == r + s;
    assert AllCountDigits(r');
    PackCharsByItems(t, o, r', s[1..], args, index, buf);
  }

  lemma {:induction false} PackCharsByItemsAtCode(t: Tables, o: Order, r: string, s: string, args: seq<Value>, index: nat, buf: seq<byte>)
    requires AllCountDigits(r)
    requires s != [] && !IsCountDigit(s[0]) && index < |args|
    requires Items(t, r + s).Ok?
    ensures PackChars(t, o, s, args, index, Accumulated(r), buf) ==
      PackItems(t, o, Items(t, r + s).value, TrailingDigits(r + s), args, index, buf)
    decreases |s|, 1
  {
    var it := Item(CountOf(r), s[0]);
    assert s[0] in t.codes && Items(t, s[1..]).Ok? && Items(t, r + s).value == [it] + Items(t, s[1..]).value by {
      ItemsAfterRun(t, r, s);
    }
    assert (if Accumulated(r) == 0 then 1 else Accumulated(r)) == it.count by {
      CountOfAccumulated(r);
    }
    assert TrailingDigits(r + s) == TrailingDigits(s[1..]) by {
      assert (r + s)[|r + s| - 1] == s[|s| - 1];
      if |s| > 1 {
        assert s[1..][|s[1..]| - 1] == s[|s| - 1];
      }
    }
    PackCharsByItemsAtItem(t, o, it, s, Items(t, s[1..]).value, TrailingDigits(s[1..]), args, index, Accumulated(r), buf);
  }

  /** One code character, with the item it closes and the items after it. */
  lemma {:induction false} PackCharsByItemsAtItem(t: Tables, o: Order, it: Item, s: string, rest: seq<Item>, trailing: bool,
                                                  args: seq<Value>, index: nat, num: nat, buf: seq<byte>)
    requires s != [] && !IsCountDigit(s[0]) && s[0] in t.codes && index < |args|
    requires it == Item(if num == 0 then 1 else num, s[0])
    requires Items(t, s[1..]) == Ok(rest) && TrailingDigits(s[1..]) == trailing
    ensures PackChars(t, o, s, args, index, num, buf) == PackItems(t, o, [it] + rest, trailing, args, index, buf)
    decreases |s|, 0
  {
    var items := [it] + rest;
    assert items[0] == it && items[1..] == rest;
    match PackItem(t, o, it, args, index, buf) {
      case Continue(next, out) =>
        assert PackChars(t, o, s, args, index, num, buf) == PackChars(t, o, s[1..], args, next, 0, out);
        assert PackItems(t, o, items, trailing, args, index, buf) == PackItems(t, o, rest, trailing, args, next, out);
        assert PackChars(t, o, s[1..], args, next, 0, out) == PackItems(t, o, rest, trailing, args, next, out) by {
          assert [] + s[1..] == s[1..];
          PackCharsByItems(t, o, [], s[1..], args, next, out);
        }
      case Stop(_) =>
    }
  }

  lemma {:induction false} PackItemsNeverBadChar(t: Tables, o: Order, items: seq<Item>, trailing: bool, args: seq<Value>, index: nat, buf: seq<byte>)
    ensures var run := PackItems(t, o, items, trailing, args, index, buf);
      run.Returned? && run.packed.err.Some? ==> !run.packed.err.value.BadChar?
    decreases |items|
  {
    if items != [] && index < |args| {
      match PackItem(t, o, items[0], args, index, buf) {
        case Continue(next, out) => PackItemsNeverBadChar(t, o, items[1..], trailing, args, next, out);
        case Stop(_) =>
      }
    }
  }

  /** Pack's loop over the body (after CalcSize has accepted it) does what
      PackReference says, and never reaches its bad-char branch. */
  lemma PackCharsIsReference(t: Tables, format: string, args: seq<Value>)
    requires |format| > 0
    requires SizeSpec(t, format).Ok?
    ensures var run := PackChars(t, OrderOf(t, format), Body(t, format), args, 0, 0, []);
      run == PackReference(t, format, args) &&
      (run.Returned? && run.packed.err.Some? ==> !run.packed.err.value.BadChar?)
  {
    var body := Body(t, format);
    assert [] + body == body;
    PackCharsByItems(t, OrderOf(t, format), [], body, args, 0, []);
    PackCharsNeverBadChar(t, OrderOf(t, format), body, args);
  }

  /** Once CalcSize has accepted the body, the bad-char branch of Pack's own
      loop is unreachable. */
  lemma PackCharsNeverBadChar(t: Tables, o: Order, body: string, args: seq<Value>)
    requires Items(t, body).Ok?
    ensures var run := PackChars(t, o, body, args, 0, 0, []);
      run.Returned? && run.packed.err.Some? ==> !run.packed.err.value.BadChar?
  {
    assert [] + body == body;
    PackCharsByItems(t, o, [], body, args, 0, []);
    PackItemsNeverBadChar(t, o, Items(t, body).value, TrailingDigits(body), args, 0, []);
  }
}

module PackProperties {
  import opened Types
  import opened Format
  import opened Packer

  /** Pack ran to the end of the format: no error, or only the extra-items one. */
  predicate Completes(run: PackRun) {
    run.Returned? && (run.packed.err.None? || run.packed.err.value.ExtraItems?)
  }

  /** The repeat loop encodes `k` values from `index` exactly when that many
      arguments remain and buildValue accepts each; it panics exactly when
      fewer remain and buildValue accepts all of those. */
  lemma {:induction false} RepeatEncodes(t: Tables, o: Order, c: char, args: seq<Value>, index: nat, k: nat, buf: seq<byte>)
    requires index <= |args|
    ensures Repeat(t, o, c, args, index, k, buf).Encoded? <==>
      index + k <= |args| && EncodeAll(t, o, c, args[index..index + k]).Some?
    ensures Repeat(t, o, c, args, index, k, buf).Encoded? ==>
      Repeat(t, o, c, args, index, k, buf) == Encoded(index + k, buf + EncodeAll(t, o, c, args[index..index + k]).value)
    ensures Repeat(t, o, c, args, index, k, buf).Overrun? <==>
      index + k > |args| && EncodeAll(t, o, c, args[index..]).Some?
    decreases k
  {
    if k == 0 {
      assert args[index..index] == [];
    } else if index == |args| {
      assert args[index..] == [];
    } else {
      assert args[index..][0] == args[index];
      assert args[index..][1..] == args[index + 1..];
      if index + k <= |args| {
        assert args[index..index + k][0] == args[index];
        assert args[index..index + k][1..] == args[index + 1..index + k];
      }
      match t.buildValue(args[index], c, o) {
        case None =>
        case Some(d) =>
          RepeatEncodes(t, o, c, args, index + 1, k - 1, buf + d);
          if index + k <= |args| && EncodeAll(t, o, c, args[index + 1..index + k]).Some? {
            var e := EncodeAll(t, o, c, args[index + 1..index + k]).value;
            assert buf + d + e == buf + (d + e);
          }
      }
    }
  }

  lemma ValidItemsTail(t: Tables, items: seq<Item>)
    requires items != [] && ValidItems(t, items)
    ensures items[0].count >= 1 && ValidItems(t, items[1..])
  {
    var rest := items[1..];
    forall i | 0 <= i < |rest| ensures rest[i].count >= 1 && rest[i].code in t.codes {
      assert rest[i] == items[i + 1];
    }
  }

  /** The item walk reaches the end of the items exactly when the arguments
      from `index` on encode every item (with, after a trailing digit run,
      one argument to spare); it then returns the buffer grown by that
      encoding and reports any arguments left over. */
  lemma {:induction false} PackItemsCompletes(t: Tables, o: Order, items: seq<Item>, trailing: bool, args: seq<Value>, index: nat, buf: seq<byte>)
    requires index <= |args|
    requires ValidItems(t, items)
    ensures Completes(PackItems(t, o, items, trailing, args, index, buf)) <==>
      EncodeItems(t, o, items, args[index..]).Some? && (trailing ==> index + ArgsNeeded(t, items) < |args|)
    ensures Completes(PackItems(t, o, items, trailing, args, index, buf)) ==>
      PackItems(t, o, items, trailing, args, index, buf) == Completed(t, o, items, args, index, buf)
    decreases |items|, 2
  {
    if items == [] {
      assert buf + [] == buf;
    } else if index < |args| {
      ValidItemsTail(t, items);
      if items[0].code == t.stringCode {
        PackItemsCompletesAtString(t, o, items, trailing, args, index, buf);
      } else {
        PackItemsCompletesAtRepeat(t, o, items, trailing, args, index, buf);
      }
    } else {
      ValidItemsTail(t, items);
    }
  }

  /** What a completed walk returns: the buffer grown by the encoding, and
      the count of arguments left over, if any. */
  function Completed(t: Tables, o: Order, items: seq<Item>, args: seq<Value>, index: nat, buf: seq<byte>): PackRun
    requires index <= |args| && EncodeItems(t, o, items, args[index..]).Some?
  {
    var used := index + ArgsNeeded(t, items);
    Returned(Packed(buf + EncodeItems(t, o, items, args[index..]).value,
                    if used < |args| then Some(ExtraItems(|args| - used)) else None))
  }

  lemma {:induction false} PackItemsCompletesAtString(t: Tables, o: Order, items: seq<Item>, trailing: bool, args: seq<Value>, index: nat, buf: seq<byte>)
    requires index < |args| && items != [] && items[0].code == t.stringCode
    requires ValidItems(t, items[1..])
    ensures Completes(PackItems(t, o, items, trailing, args, index, buf)) <==>
      EncodeItems(t, o, items, args[index..]).Some? && (trailing ==> index + ArgsNeeded(t, items) < |args|)
    ensures Completes(PackItems(t, o, items, trailing, args, index, buf)) ==>
      PackItems(t, o, items, trailing, args, index, buf) == Completed(t, o, items, args, index, buf)
    decreases |items|, 0
  {
    var rest, a := items[1..], args[index..];
    assert a[..1] == [args[index]];
    assert a[1..] == args[index + 1..];
    assert ArgsNeeded(t, items) == 1 + ArgsNeeded(t, rest);
    if args[index].Text? {
      var bs := t.buildString(args[index].s);
      assert PackItem(t, o, items[0], args, index, buf) == Continue(index + 1, buf + bs);
      assert PackItems(t, o, items, trailing, args, index, buf) == PackItems(t, o, rest, trailing, args, index + 1, buf + bs);
      assert EncodeItem(t, o, items[0], a[..1]) == Some(bs);
      var p' := PackItems(t, o, rest, trailing, args, index + 1, buf + bs);
      var e' := EncodeItems(t, o, rest, args[index + 1..]);
      assert EncodeItems(t, o, items, a) == if e'.Some? then Some(bs + e'.value) else None by {
        EncodeItemsStep(t, o, items, a);
      }
      assert Completes(p') <==> e'.Some? && (trailing ==> index + 1 + ArgsNeeded(t, rest) < |args|) by {
        PackItemsCompletes(t, o, rest, trailing, args, index + 1, buf + bs);
      }
      if Completes(p') {
        assert p' == Completed(t, o, rest, args, index + 1, buf + bs) by {
          PackItemsCompletes(t, o, rest, trailing, args, index + 1, buf + bs);
        }
        assert Completed(t, o, rest, args, index + 1, buf + bs) == Completed(t, o, items, args, index, buf) by {
          CompletedStep(t, o, items, args, index, buf, 1, bs);
        }
      }
    } else {
      assert PackItems(t, o, items, trailing, args, index, buf) == Returned(Packed([], Some(NotBytes)));
      assert EncodeItem(t, o, items[0], a[..1]) == None;
    }
  }

  lemma {:induction false} PackItemsCompletesAtRepeat(t: Tables, o: Order, items: seq<Item>, trailing: bool, args: seq<Value>, index: nat, buf: seq<byte>)
    requires index < |args| && items != [] && items[0].code != t.stringCode
    requires ValidItems(t, items[1..])
    ensures Completes(PackItems(t, o, items, trailing, args, index, buf)) <==>
      EncodeItems(t, o, items, args[index..]).Some? && (trailing ==> index + ArgsNeeded(t, items) < |args|)
    ensures Completes(PackItems(t, o, items, trailing, args, index, buf)) ==>
      PackItems(t, o, items, trailing, args, index, buf) == Completed(t, o, items, args, index, buf)
    decreases |items|, 1
  {
    var it, a := items[0], args[index..];
    var k := it.count;
    RepeatEncodes(t, o, it.code, args, index, k, buf);
    if Repeat(t, o, it.code, args, index, k, buf).Encoded? {
      PackItemsCompletesAfterRepeat(t, o, items, trailing, args, index, buf);
    } else if k <= |a| {
      assert a[..k] == args[index..index + k];
      assert EncodeItem(t, o, it, a[..k]) == None;
    }
  }

  lemma {:induction false} PackItemsCompletesAfterRepeat(t: Tables, o: Order, items: seq<Item>, trailing: bool, args: seq<Value>, index: nat, buf: seq<byte>)
    requires index < |args| && items != [] && items[0].code != t.stringCode
    requires ValidItems(t, items[1..])
    requires Repeat(t, o, items[0].code, args, index, items[0].count, buf).Encoded?
    ensures Completes(PackItems(t, o, items, trailing, args, index, buf)) <==>
      EncodeItems(t, o, items, args[index..]).Some? && (trailing ==> index + ArgsNeeded(t, items) < |args|)
    ensures Completes(PackItems(t, o, items, trailing, args, index, buf)) ==>
      PackItems(t, o, items, trailing, args, index, buf) == Completed(t, o, items, args, index, buf)
    decreases |items|, 0
  {
    var it, rest, a := items[0], items[1..], args[index..];
    var k := it.count;
    var next := index + k;
    assert next <= |args| && EncodeAll(t, o, it.code, args[index..next]).Some? &&
      Repeat(t, o, it.code, args, index, k, buf) == Encoded(next, buf + EncodeAll(t, o, it.code, args[index..next]).value) by {
      RepeatEncodes(t, o, it.code, args, index, k, buf);
    }
    var d := EncodeAll(t, o, it.code, args[index..next]).value;
    var p, p' := PackItems(t, o, items, trailing, args, index, buf), PackItems(t, o, rest, trailing, args, next, buf + d);
    var e, e' := EncodeItems(t, o, items, a), EncodeItems(t, o, rest, args[next..]);
    assert p == p' by {
      PackItemsAfterEncoded(t, o, items, trailing, args, index, buf);
    }
    assert e == if e'.Some? then Some(d + e'.value) else None by {
      assert a[..k] == args[index..next];
      assert a[k..] == args[next..];
      EncodeItemsStep(t, o, items, a);
    }
    assert ArgsNeeded(t, items) == k + ArgsNeeded(t, rest);
    assert Completes(p') <==> e'.Some? && (trailing ==> next + ArgsNeeded(t, rest) < |args|) by {
      PackItemsCompletes(t, o, rest, trailing, args, next, buf + d);
    }
    if Completes(p') {
      assert p' == Completed(t, o, rest, args, next, buf + d) by {
        PackItemsCompletes(t, o, rest, trailing, args, next, buf + d);
      }
      assert Completed(t, o, rest, args, next, buf + d) == Completed(t, o, items, args, index, buf) by {
        CompletedStep(t, o, items, args, index, buf, k, d);
      }
    }
  }

  /** A completed walk after a first item that encoded to `d`. */
  lemma CompletedStep(t: Tables, o: Order, items: seq<Item>, args: seq<Value>, index: nat, buf: seq<byte>, k: nat, d: seq<byte>)
    requires items != [] && k == ArgsOf(t, items[0]) && index + k <= |args|
    requires EncodeItems(t, o, items, args[index..]).Some?
    requires EncodeItems(t, o, items[1..], args[index + k..]).Some?
    requires EncodeItems(t, o, items, args[index..]).value == d + EncodeItems(t, o, items[1..], args[index + k..]).value
    ensures Completed(t, o, items[1..], args, index + k, buf + d) == Completed(t, o, items, args, index, buf)
  {
    var e' := EncodeItems(t, o, items[1..], args[index + k..]).value;
    assert buf + d + e' == buf + (d + e');
  }

  /** One step of the walk over a scalar item whose repeat loop encodes. */
  lemma PackItemsAfterEncoded(t: Tables, o: Order, items: seq<Item>, trailing: bool, args: seq<Value>, index: nat, buf: seq<byte>)
    requires index < |args| && items != [] && items[0].code != t.stringCode
    requires Repeat(t, o, items[0].code, args, index, items[0].count, buf).Encoded?
    ensures var r := Repeat(t, o, items[0].code, args, index, items[0].count, buf);
      PackItems(t, o, items, trailing, args, index, buf) == PackItems(t, o, items[1..], trailing, args, r.index, r.bytes)
  {
  }

  /** One step of EncodeItems, when the first item's arguments are there. */
  lemma EncodeItemsStep(t: Tables, o: Order, items: seq<Item>, a: seq<Value>)
    requires items != [] && ArgsOf(t, items[0]) <= |a|
    ensures var k := ArgsOf(t, items[0]);
      EncodeItems(t, o, items, a) ==
        match EncodeItem(t, o, items[0], a[..k])
        case None => None
        case Some(d) =>
          match EncodeItems(t, o, items[1..], a[k..])
          case None => None
          case Some(e) => Some(d + e)
  {
  }

  /** Pack succeeds exactly when the format parses, the arguments are exactly
      as many as its items consume, each is accepted by its encoder, and the
      format does not end in digits (whose argument check would then fail);
      the bytes are then the items' encodings in order. */
  lemma PackSucceeds(t: Tables, format: string, args: seq<Value>)
    requires |format| > 0
    ensures var run := PackReference(t, format, args);
      var body := Body(t, format);
      (run.Returned? && run.packed.err == None) <==>
        (Items(t, body).Ok? && ArgsNeeded(t, Items(t, body).value) == |args| &&
         EncodeItems(t, OrderOf(t, format), Items(t, body).value, args).Some? && !TrailingDigits(body))
    ensures var run := PackReference(t, format, args);
      var body := Body(t, format);
      run.Returned? && run.packed.err == None ==>
        run.packed.bytes == EncodeItems(t, OrderOf(t, format), Items(t, body).value, args).value
  {
    var body := Body(t, format);
    if Items(t, body).Ok? {
      assert args[0..] == args;
      var e := EncodeItems(t, OrderOf(t, format), Items(t, body).value, args);
      if e.Some? {
        assert [] + e.value == e.value;
      }
      PackItemsCompletes(t, OrderOf(t, format), Items(t, body).value, TrailingDigits(body), args, 0, []);
    }
  }

  /** Pack reports "%d extra items" exactly when the format parses and the
      arguments it consumes are all accepted with some left over; the count is
      the number left over and the buffer is the full encoding. */
  lemma PackReportsExtraItems(t: Tables, format: string, args: seq<Value>)
    requires |format| > 0
    ensures var run := PackReference(t, format, args);
      var body := Body(t, format);
      (run.Returned? && run.packed.err.Some? && run.packed.err.value.ExtraItems?) <==>
        (Items(t, body).Ok? && ArgsNeeded(t, Items(t, body).value) < |args| &&
         EncodeItems(t, OrderOf(t, format), Items(t, body).value, args).Some?)
    ensures var run := PackReference(t, format, args);
      var body := Body(t, format);
      run.Returned? && run.packed.err.Some? && run.packed.err.value.ExtraItems? ==>
        run.packed.err.value.count == |args| - ArgsNeeded(t, Items(t, body).value) &&
        run.packed.bytes == EncodeItems(t, OrderOf(t, format), Items(t, body).value, args).value
  {
    var body := Body(t, format);
    if Items(t, body).Ok? {
      assert args[0..] == args;
      var e := EncodeItems(t, OrderOf(t, format), Items(t, body).value, args);
      if e.Some? {
        assert [] + e.value == e.value;
      }
      PackItemsCompletes(t, OrderOf(t, format), Items(t, body).value, TrailingDigits(body), args, 0, []);
    }
  }

  /** A body that ends in digits is never packed cleanly: with exactly the
      arguments its items consume Pack returns the index error with their
      bytes, and with more it reports the extra items. */
  lemma TrailingDigitsNeverPack(t: Tables, format: string, args: seq<Value>)
    requires |format| > 0 && TrailingDigits(Body(t, format))
    requires Items(t, Body(t, format)).Ok?
    requires EncodeItems(t, OrderOf(t, format), Items(t, Body(t, format)).value, args).Some?
    ensures var items := Items(t, Body(t, format)).value;
      ArgsNeeded(t, items) == |args| ==>
        PackReference(t, format, args) ==
          Returned(Packed(EncodeItems(t, OrderOf(t, format), items, args).value, Some(IndexError)))
    ensures var items := Items(t, Body(t, format)).value;
      ArgsNeeded(t, items) < |args| ==>
        PackReference(t, format, args) ==
          Returned(Packed(EncodeItems(t, OrderOf(t, format), items, args).value, Some(ExtraItems(|args| - ArgsNeeded(t, items)))))
  {
    var o, items := OrderOf(t, format), Items(t, Body(t, format)).value;
    var e := EncodeItems(t, o, items, args).value;
    if ArgsNeeded(t, items) == |args| {
      assert items[..|items|] == items && args[0..] == args;
      assert RanOutAt(t, o, items, true, args, 0, |items|, e);
      PackItemsRunOut(t, o, items, true, args, 0, [], |items|, e);
      assert [] + e == e;
    } else if ArgsNeeded(t, items) < |args| {
      PackReportsExtraItems(t, format, args);
    }
  }

  lemma {:induction false} PackItemsIndexError(t: Tables, o: Order, items: seq<Item>, trailing: bool, args: seq<Value>, index: nat, buf: seq<byte>)
    requires index <= |args|
    requires ValidItems(t, items)
    ensures var run := PackItems(t, o, items, trailing, args, index, buf);
      run.Returned? && run.packed.err == Some(IndexError) ==>
        |args| < index + ArgsNeeded(t, items) || (|args| == index + ArgsNeeded(t, items) && trailing)
    decreases |items|
  {
    if items != [] && index < |args| {
      var rest := items[1..];
      assert ValidItems(t, rest) by {
        forall i | 0 <= i < |rest| ensures rest[i].count >= 1 && rest[i].code in t.codes {
          assert rest[i] == items[i + 1];
        }
      }
      if items[0].code != t.stringCode {
        RepeatEncodes(t, o, items[0].code, args, index, items[0].count, buf);
      }
      match PackItem(t, o, items[0], args, index, buf) {
        case Continue(next, out) => PackItemsIndexError(t, o, rest, trailing, args, next, out);
        case Stop(_) =>
      }
    } else if items != [] {
      assert items[0].count >= 1;
    }
  }

  /** The "index error" is reported only when the arguments run out: fewer
      than the items consume, or exactly as many when digits trail the last
      code (the check before each of those digits then fails). */
  lemma PackIndexErrorMeansArgumentsRanOut(t: Tables, format: string, args: seq<Value>)
    requires |format| > 0
    ensures var run := PackReference(t, format, args);
      var body := Body(t, format);
      run.Returned? && run.packed.err == Some(IndexError) ==>
        Items(t, body).Ok? &&
        (|args| < ArgsNeeded(t, Items(t, body).value) ||
         (|args| == ArgsNeeded(t, Items(t, body).value) && TrailingDigits(body)))
  {
    var body := Body(t, format);
    if Items(t, body).Ok? {
      PackItemsIndexError(t, OrderOf(t, format), Items(t, body).value, TrailingDigits(body), args, 0, []);
    }
  }

  /** The walk from `index` runs out of arguments right after the first `k`
      items: they consume exactly the arguments left and encode to `bytes`,
      and an item or a trailing digit still follows, whose check then fails. */
  predicate RanOutAt(t: Tables, o: Order, items: seq<Item>, trailing: bool, args: seq<Value>, index: nat, k: nat, bytes: seq<byte>) {
    k <= |items| && index + ArgsNeeded(t, items[..k]) == |args| && (k < |items| || trailing) &&
    EncodeItems(t, o, items[..k], args[index..]) == Some(bytes)
  }

  /** A first item that encodes to `d` from its arguments moves the walk on
      past them with `d` appended. */
  lemma PackItemsStepEncoded(t: Tables, o: Order, items: seq<Item>, trailing: bool, args: seq<Value>, index: nat, buf: seq<byte>, d: seq<byte>)
    requires items != [] && index < |args| && index + ArgsOf(t, items[0]) <= |args|
    requires EncodeItem(t, o, items[0], args[index..index + ArgsOf(t, items[0])]) == Some(d)
    ensures PackItems(t, o, items, trailing, args, index, buf) ==
      PackItems(t, o, items[1..], trailing, args, index + ArgsOf(t, items[0]), buf + d)
  {
    var it := items[0];
    if it.code == t.stringCode {
      assert args[index..index + 1] == [args[index]];
    } else {
      assert Repeat(t, o, it.code, args, index, it.count, buf) == Encoded(index + it.count, buf + d) by {
        RepeatEncodes(t, o, it.code, args, index, it.count, buf);
      }
      PackItemsAfterEncoded(t, o, items, trailing, args, index, buf);
    }
  }

  /** The first `k + 1` items run out of arguments exactly when the first
      item encodes from its arguments and the rest run out after `k`. */
  lemma RanOutAtStep(t: Tables, o: Order, items: seq<Item>, trailing: bool, args: seq<Value>, index: nat, k: nat, d: seq<byte>, e: seq<byte>)
    requires items != [] && index + ArgsOf(t, items[0]) <= |args|
    requires EncodeItem(t, o, items[0], args[index..index + ArgsOf(t, items[0])]) == Some(d)
    ensures RanOutAt(t, o, items, trailing, args, index, k + 1, d + e) <==>
      RanOutAt(t, o, items[1..], trailing, args, index + ArgsOf(t, items[0]), k, e)
  {
    var n := ArgsOf(t, items[0]);
    var a := args[index..];
    if k + 1 <= |items| {
      var xs := items[..k + 1];
      assert xs[0] == items[0] && xs[1..] == items[1..][..k];
      assert ArgsNeeded(t, xs) == n + ArgsNeeded(t, items[1..][..k]);
      assert a[..n] == args[index..index + n];
      assert a[n..] == args[index + n..];
      EncodeItemsStep(t, o, xs, a);
      var e' := EncodeItems(t, o, items[1..][..k], args[index + n..]);
      assert EncodeItems(t, o, xs, a) == if e'.Some? then Some(d + e'.value) else None;
      if e'.Some? && d + e'.value == d + e {
        assert e'.value == (d + e)[|d|..] == e;
      }
    }
  }

  /** When the items before `k` use up the arguments, the walk returns the
      index error with their encoding appended to the buffer. */
  lemma {:induction false} PackItemsRunOut(t: Tables, o: Order, items: seq<Item>, trailing: bool, args: seq<Value>, index: nat, buf: seq<byte>, k: nat, e: seq<byte>)
    requires ValidItems(t, items)
    requires RanOutAt(t, o, items, trailing, args, index, k, e)
    ensures PackItems(t, o, items, trailing, args, index, buf) == Returned(Packed(buf + e, Some(IndexError)))
    decreases k
  {
    if k == 0 {
      assert items[..0] == [];
      assert buf + [] == buf;
    } else {
      var n := ArgsOf(t, items[0]);
      RanOutAtHead(t, o, items, trailing, args, index, k, e);
      var d := EncodeItem(t, o, items[0], args[index..index + n]).value;
      var e' := e[|d|..];
      PackItemsStepEncoded(t, o, items, trailing, args, index, buf, d);
      ValidItemsTail(t, items);
      PackItemsRunOut(t, o, items[1..], trailing, args, index + n, buf + d, k - 1, e');
      SeqAppendAssociates(buf, d, e');
    }
  }

  /** Running out after `k > 0` items means the first item encodes from its
      own arguments and the rest run out after `k - 1`. */
  lemma RanOutAtHead(t: Tables, o: Order, items: seq<Item>, trailing: bool, args: seq<Value>, index: nat, k: nat, e: seq<byte>)
    requires ValidItems(t, items) && RanOutAt(t, o, items, trailing, args, index, k, e) && k > 0
    ensures index < |args| && index + ArgsOf(t, items[0]) <= |args|
    ensures EncodeItem(t, o, items[0], args[index..index + ArgsOf(t, items[0])]).Some?
    ensures var d := EncodeItem(t, o, items[0], args[index..index + ArgsOf(t, items[0])]).value;
      |d| <= |e| && e == d + e[|d|..] &&
      RanOutAt(t, o, items[1..], trailing, args, index + ArgsOf(t, items[0]), k - 1, e[|d|..])
  {
    var xs, a := items[..k], args[index..];
    var n := ArgsOf(t, items[0]);
    assert xs[0] == items[0];
    assert n >= 1 && ArgsNeeded(t, xs) == n + ArgsNeeded(t, xs[1..]);
    assert a[..n] == args[index..index + n];
    var d := EncodeItem(t, o, items[0], a[..n]).value;
    var e' := EncodeItems(t, o, xs[1..], a[n..]).value;
    assert e == d + e' by {
      EncodeItemsStep(t, o, xs, a);
    }
    assert e[|d|..] == e';
    RanOutAtStep(t, o, items, trailing, args, index, k - 1, d, e');
  }

  /** An item step that goes on has consumed the item's arguments and
      appended what they encode to. */
  lemma PackItemContinues(t: Tables, o: Order, it: Item, args: seq<Value>, index: nat, buf: seq<byte>)
    requires index < |args|
    ensures match PackItem(t, o, it, args, index, buf)
      case Continue(next, out) =>
        next == index + ArgsOf(t, it) && next <= |args| && |buf| <= |out| && out == buf + out[|buf|..] &&
        EncodeItem(t, o, it, args[index..next]) == Some(out[|buf|..])
      case Stop(_) => true
  {
    if it.code == t.stringCode {
      assert args[index..index + 1] == [args[index]];
    } else {
      RepeatEncodes(t, o, it.code, args, index, it.count, buf);
    }
  }

  /** Conversely, an index error from the walk means the arguments ran out
      after some prefix of the items, and the bytes returned are the buffer
      grown by that prefix's encoding. */
  lemma {:induction false} PackItemsIndexErrorAt(t: Tables, o: Order, items: seq<Item>, trailing: bool, args: seq<Value>, index: nat, buf: seq<byte>)
    requires index <= |args|
    ensures var run := PackItems(t, o, items, trailing, args, index, buf);
      run.Returned? && run.packed.err == Some(IndexError) ==>
        exists k: nat, e :: RanOutAt(t, o, items, trailing, args, index, k, e) && run.packed.bytes == buf + e
    decreases |items|, 1
  {
    var run := PackItems(t, o, items, trailing, args, index, buf);
    if index >= |args| && (items != [] || trailing) {
      assert items[..0] == [] && args[index..] == [];
      assert RanOutAt(t, o, items, trailing, args, index, 0, []);
      assert run.packed.bytes == buf + [];
    } else if items != [] {
      PackItemsIndexErrorAtItem(t, o, items, trailing, args, index, buf);
    }
  }

  /** The step case of `PackItemsIndexErrorAt`: the first item is checked. */
  lemma {:induction false} PackItemsIndexErrorAtItem(t: Tables, o: Order, items: seq<Item>, trailing: bool, args: seq<Value>, index: nat, buf: seq<byte>)
    requires items != [] && index < |args|
    ensures var run := PackItems(t, o, items, trailing, args, index, buf);
      run.Returned? && run.packed.err == Some(IndexError) ==>
        exists k: nat, e :: RanOutAt(t, o, items, trailing, args, index, k, e) && run.packed.bytes == buf + e
    decreases |items|, 0
  {
    var run := PackItems(t, o, items, trailing, args, index, buf);
    PackItemContinues(t, o, items[0], args, index, buf);
    match PackItem(t, o, items[0], args, index, buf) {
      case Continue(next, out) =>
        var d := out[|buf|..];
        var run' := PackItems(t, o, items[1..], trailing, args, next, out);
        assert run == run';
        PackItemsIndexErrorAt(t, o, items[1..], trailing, args, next, out);
        if run'.Returned? && run'.packed.err == Some(IndexError) {
          var k: nat, e' :| RanOutAt(t, o, items[1..], trailing, args, next, k, e') && run'.packed.bytes == out + e';
          assert RanOutAt(t, o, items, trailing, args, index, k + 1, d + e') by {
            RanOutAtStep(t, o, items, trailing, args, index, k, d, e');
          }
          assert run.packed.bytes == buf + (d + e') by {
            assert out == buf + d;
            SeqAppendAssociates(buf, d, e');
          }
        }
      case Stop(_) =>
    }
  }

  lemma SeqAppendAssociates<T>(a: seq<T>, b: seq<T>, c: seq<T>)
    ensures (a + b) + c == a + (b + c)
  {
  }

  /** Pack returns the index error with `bytes` exactly when the format
      parses and its items, from the first on, use up the arguments just
      before a further item or a trailing digit, and `bytes` is what those
      items encode to: the partial buffer. */
  lemma PackIndexErrorExactly(t: Tables, format: string, args: seq<Value>, bytes: seq<byte>)
    requires |format| > 0
    ensures var body := Body(t, format);
      PackReference(t, format, args) == Returned(Packed(bytes, Some(IndexError))) <==>
        Items(t, body).Ok? &&
        exists k: nat :: RanOutAt(t, OrderOf(t, format), Items(t, body).value, TrailingDigits(body), args, 0, k, bytes)
  {
    var body := Body(t, format);
    if Items(t, body).Ok? {
      var o, items, trailing := OrderOf(t, format), Items(t, body).value, TrailingDigits(body);
      PackItemsIndexErrorAt(t, o, items, trailing, args, 0, []);
      if PackReference(t, format, args) == Returned(Packed(bytes, Some(IndexError))) {
        var k: nat, e :| RanOutAt(t, o, items, trailing, args, 0, k, e) && bytes == [] + e;
        assert [] + e == e;
      }
      if exists k: nat :: RanOutAt(t, o, items, trailing, args, 0, k, bytes) {
        var k: nat :| RanOutAt(t, o, items, trailing, args, 0, k, bytes);
        PackItemsRunOut(t, o, items, trailing, args, 0, [], k, bytes);
        assert [] + bytes == bytes;
      }
    }
  }

  lemma {:induction false} EnoughArgumentsNeverPanic(t: Tables, o: Order, items: seq<Item>, trailing: bool, args: seq<Value>, index: nat, buf: seq<byte>)
    requires index + ArgsNeeded(t, items) <= |args|
    ensures !PackItems(t, o, items, trailing, args, index, buf).Panicked?
    decreases |items|
  {
    if items != [] && index < |args| {
      if items[0].code != t.stringCode {
        RepeatEncodes(t, o, items[0].code, args, index, items[0].count, buf);
      }
      match PackItem(t, o, items[0], args, index, buf) {
        case Continue(next, out) => EnoughArgumentsNeverPanic(t, o, items[1..], trailing, args, next, out);
        case Stop(_) =>
      }
    }
  }

  /** Pack cannot panic when it is given at least the arguments the format
      consumes: the unchecked read in the repeat loop is reached only with
      too few. */
  lemma PackWithEnoughArgumentsNeverPanics(t: Tables, format: string, args: seq<Value>)
    requires |format| > 0
    requires Items(t, Body(t, format)).Ok?
    requires ArgsNeeded(t, Items(t, Body(t, format)).value) <= |args|
    ensures !PackReference(t, format, args).Panicked?
  {
    var body := Body(t, format);
    EnoughArgumentsNeverPanic(t, OrderOf(t, format), Items(t, body).value, TrailingDigits(body), args, 0, []);
  }

  /** The repeat loop has no argument check of its own: a count of 2 given
      one acceptable argument panics instead of reporting an index error. */
  lemma CountTwoWithOneArgumentPanics(t: Tables, c: char, v: Value)
    requires '2' !in t.prefixes
    requires c in t.codes && !IsCountDigit(c) && c != t.stringCode
    requires t.buildValue(v, c, Native).Some?
    ensures PackReference(t, ['2', c], [v]).Panicked?
  {
    var f := ['2', c];
    assert Body(t, f) == f;
    assert f == "2" + [c];
    ItemsAfterRun(t, "2", [c]);
    AllDigitsHaveNoItems(t, []);
    assert [c][1..] == [];
    assert CountOf("2") == 2;
    var items := [Item(2, c)];
    assert [Item(2, c)] + [] == items;
    assert Items(t, f) == Ok(items);
    var d := t.buildValue(v, c, Native).value;
    assert Repeat(t, Native, c, [v], 0, 2, []) == Repeat(t, Native, c, [v], 1, 1, d);
  }

  /** What Pack reports for a format given no arguments: the CalcSize
      error, nothing for a format that is only an order character, and
      otherwise the index error of the first argument check. */
  function NoArgumentsError(t: Tables, format: string): Option<Error>
    requires |format| > 0
  {
    var body := Body(t, format);
    if Items(t, body).Err? then Some(Items(t, body).error)
    else if body == [] then None
    else Some(IndexError)
  }

  /** Pack with no arguments returns no bytes and that error: the CalcSize
      error, nothing for a format with nothing after its order character, and
      the index error for every other format. */
  lemma PackWithoutArguments(t: Tables, format: string)
    requires |format| > 0
    ensures PackReference(t, format, []) == Returned(Packed([], NoArgumentsError(t, format)))
  {
    var body := Body(t, format);
    if Items(t, body).Ok? && body != [] && Items(t, body).value == [] {
      assert RunLength(body) == |body|;
      assert body[..|body|] == body;
    }
  }

  /** PackInto at the end of the buffer appends the packed bytes. */
  lemma OverlaidAtEndAppends(buffer: seq<byte>, part: seq<byte>)
    ensures Overlaid(buffer, |buffer|, part) == buffer + part
  {
    var r := Overlaid(buffer, |buffer|, part);
    forall i | 0 <= i < |r| ensures r[i] == (buffer + part)[i] {
      if i >= |buffer| {
        assert r[|buffer| + (i - |buffer|)] == part[i - |buffer|];
      }
    }
  }
}
