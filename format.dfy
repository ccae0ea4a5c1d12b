/** The format grammar and CalcSize.

    A format body (after the optional order character) is a sequence of
    items, each a run of count digits ('1'..'9') followed by one type code;
    a '0' ends a run and is itself looked up as a type code, and a run at the
    very end with no code after it is ignored. `Items` is that grammar; the
    loop of CalcSize scans character by character (`CalcChars`), and
    `CalcCharsByItems` shows the two agree. */
module Format {
  import opened Types

  /** One `(digits)(code)` pair of a format. */
  datatype Item = Item(count: nat, code: char)

  predicate AllCountDigits(r: string) {
    forall i :: 0 <= i < |r| ==> IsCountDigit(r[i])
  }

  /** The format ends in a run of count digits that no code follows. */
  predicate TrailingDigits(s: string) {
    s != [] && IsCountDigit(s[|s| - 1])
  }

  /** Length of the run of count digits at the start of `s`. */
  function RunLength(s: string): (k: nat)
    ensures k <= |s|
    ensures AllCountDigits(s[..k])
    ensures k < |s| ==> !IsCountDigit(s[k])
  {
    if s != [] && IsCountDigit(s[0]) then
      var k' := RunLength(s[1..]);
      assert s[..1 + k'] == [s[0]] + s[1..][..k'];
      1 + k'
    else
      0
  }

  function DigitSum(r: string): nat {
    if r == [] then 0 else DigitValue(r[0]) + DigitSum(r[1..])
  }

  /** The repeat count a digit run stands for, as addNum accumulates it:
      d1 + 10 * (d2 + ... + dk), and 1 for an empty run. */
  function CountOf(r: string): nat {
    if r == [] then 1 else DigitValue(r[0]) + 10 * DigitSum(r[1..])
  }

  /** The value the loops hold in `num` after reading the run `r`, one
      addNum step per character. */
  function Accumulated(r: string): nat {
    if r == [] then 0
    else
      var n := Accumulated(r[..|r| - 1]);
      n + AddNum(n, r[|r| - 1])
  }

  /** The items of a format body, or the first bad character. */
  function Items(t: Tables, s: string): (r: Result<seq<Item>, Error>)
    ensures r.Ok? ==> ValidItems(t, r.value)
    ensures r.Err? ==> r.error.BadChar?
    decreases |s|
  {
    var k := RunLength(s);
    if k == |s| then Ok([])
    else if s[k] !in t.codes then Err(BadChar(s[k]))
    else
      assert k > 0 ==> s[..k][0] == s[0];
      Prepend(Item(CountOf(s[..k]), s[k]), Items(t, s[k + 1..]))
  }

  function Prepend(it: Item, r: Result<seq<Item>, Error>): Result<seq<Item>, Error> {
    match r
    case Err(e) => Err(e)
    case Ok(rest) => Ok([it] + rest)
  }

  /** What every parsed item satisfies: a positive count and a known code. */
  predicate ValidItems(t: Tables, items: seq<Item>) {
    forall i :: 0 <= i < |items| ==> items[i].count >= 1 && items[i].code in t.codes
  }

  /** k * w, as k additions of w: the bytes of k values of width w. */
  function Span(k: nat, w: nat): nat {
    if k == 0 then 0 else w + Span(k - 1, w)
  }

  lemma {:induction false} SpanIsProduct(k: nat, w: nat)
    ensures Span(k, w) == k * w
  {
    if k > 0 {
      SpanIsProduct(k - 1, w);
    }
  }

  /** Sum of count * width over the items. */
  function SizeOf(t: Tables, items: seq<Item>): nat {
    if items == [] then 0
    else Span(items[0].count, t.width(items[0].code)) + SizeOf(t, items[1..])
  }

  /** The size a format describes: the sum of count * width over its items. */
  function SizeSpec(t: Tables, format: string): Result<nat, Error>
    requires |format| > 0
  {
    SizeAfter(0, t, Items(t, Body(t, format)))
  }

  /** The loop of CalcSize, run from a state with pending count `num` and
      accumulated `size`. */
  function CalcChars(t: Tables, s: string, num: nat, size: nat): Result<nat, Error>
    decreases |s|
  {
    if s == [] then Ok(size)
    else
      var add := AddNum(num, s[0]);
      if add > 0 then CalcChars(t, s[1..], num + add, size)
      else
        var n := if num == 0 then 1 else num;
        if s[0] !in t.codes then Err(BadChar(s[0]))
        else CalcChars(t, s[1..], 0, size + n * t.width(s[0]))
  }

  /** CalcSize(format): the size of the buffer the format describes. */
  method CalcSize(t: Tables, format: string) returns (r: Result<nat, Error>)
    requires |format| > 0
    ensures r == SizeSpec(t, format)
  {
    var body := format;
    if format[0] in t.prefixes {
      body := format[1..];
    }
    r := CalcLoop(t, body);
    assert [] + body == body;
    CalcCharsByItems(t, [], body, 0);
  }

  /** The character loop of CalcSize over a format body. */
  method CalcLoop(t: Tables, body: string) returns (r: Result<nat, Error>)
    ensures r == CalcChars(t, body, 0, 0)
  {
    var num: nat := 0;
    var size: nat := 0;
    var i := 0;
    while i < |body|
      invariant 0 <= i <= |body|
      invariant CalcChars(t, body, 0, 0) == CalcChars(t, body[i..], num, size)
    {
      var c := body[i];
      assert body[i..][1..] == body[i + 1..];
      var add := AddNum(num, c);
      if add > 0 {
        num := num + add;
        i := i + 1;
        continue;
      }
      if num == 0 {
        num := 1;
      }
      if c !in t.codes {
        return Err(BadChar(c));
      }
      size := size + num * t.width(c);
      num := 0;
      i := i + 1;
    }
    return Ok(size);
  }

  // ----- The repeat count -----

  lemma {:induction false} DigitSumSnoc(r: string, d: char)
    ensures DigitSum(r + [d]) == DigitSum(r) + DigitValue(d)
    decreases |r|
  {
    if r != [] {
      assert (r + [d])[1..] == r[1..] + [d];
      DigitSumSnoc(r[1..], d);
    }
  }

  /** The count the loops accumulate for digits d1 d2 ... dk (all non-zero)
      is d1 + 10 * (d2 + ... + dk): addNum is not base 10. */
  lemma {:induction false} AccumulatedIsCount(r: string)
    requires r != [] && AllCountDigits(r)
    ensures Accumulated(r) == DigitValue(r[0]) + 10 * DigitSum(r[1..])
    decreases |r|
  {
    var init := r[..|r| - 1];
    var last := r[|r| - 1];
    if init == [] {
      assert r == [last];
    } else {
      AccumulatedIsCount(init);
      assert r[1..] == init[1..] + [last];
      DigitSumSnoc(init[1..], last);
    }
  }

  /** A single run of digits before a code: "12" counts 1 + 2 * 10. */
  lemma TwelveCountsTwentyOne()
    ensures Accumulated("12") == 21
    ensures CountOf("12") == 21
  {
    assert "12"[..1] == "1";
    assert "1"[..0] == "";
  }

  lemma AccumulatedSnoc(r: string, d: char)
    ensures Accumulated(r + [d]) == Accumulated(r) + AddNum(Accumulated(r), d)
  {
    assert (r + [d])[..|r|] == r;
  }

  /** With no digits the count is 1; otherwise it is what addNum accumulated. */
  lemma CountOfAccumulated(r: string)
    requires AllCountDigits(r)
    ensures (if Accumulated(r) == 0 then 1 else Accumulated(r)) == CountOf(r)
    ensures Accumulated(r) == 0 <==> r == []
  {
    if r != [] {
      AccumulatedIsCount(r);
    }
  }

  // ----- The grammar -----

  lemma {:induction false} RunLengthOfDigitsThen(r: string, s: string)
    requires AllCountDigits(r)
    requires s == [] || !IsCountDigit(s[0])
    ensures RunLength(r + s) == |r|
    decreases |r|
  {
    if r != [] {
      assert (r + s)[1..] == r[1..] + s;
      RunLengthOfDigitsThen(r[1..], s);
    }
  }

  lemma AllDigitsHaveNoItems(t: Tables, r: string)
    requires AllCountDigits(r)
    ensures Items(t, r) == Ok([])
  {
    RunLengthOfDigitsThen(r, []);
    assert r + [] == r;
  }

  /** A digit run followed by a non-digit: the run is the count of the item
      whose code is that character. */
  lemma ItemsAfterRun(t: Tables, r: string, s: string)
    requires AllCountDigits(r)
    requires s != [] && !IsCountDigit(s[0])
    ensures Items(t, r + s) ==
      if s[0] !in t.codes then Err(BadChar(s[0]))
      else Prepend(Item(CountOf(r), s[0]), Items(t, s[1..]))
  {
    RunLengthOfDigitsThen(r, s);
    var k := |r|;
    assert (r + s)[k] == s[0];
    assert (r + s)[..k] == r;
    assert (r + s)[k + 1..] == s[1..];
  }

  function SizeAfter(size: nat, t: Tables, r: Result<seq<Item>, Error>): Result<nat, Error> {
    match r
    case Err(e) => Err(e)
    case Ok(items) => Ok(size + SizeOf(t, items))
  }

  /** The loop of CalcSize, started with the count of a digit run `r`
      pending, computes the size of the items of `r + s`. */
  lemma {:induction false} CalcCharsByItems(t: Tables, r: string, s: string, size: nat)
    requires AllCountDigits(r)
    ensures CalcChars(t, s, Accumulated(r), size) == SizeAfter(size, t, Items(t, r + s))
    decreases |s|, 1
  {
    if s == [] {
      assert r + s == r;
      AllDigitsHaveNoItems(t, r);
    } else if IsCountDigit(s[0]) {
      var r' := r + [s[0]];
      assert CalcChars(t, s, Accumulated(r), size) == CalcChars(t, s[1..], Accumulated(r'), size) by {
        AccumulatedSnoc(r, s[0]);
      }
      assert r' + s[1..] == r + s;
      assert AllCountDigits(r');
      assert CalcChars(t, s[1..], Accumulated(r'), size) == SizeAfter(size, t, Items(t, r' + s[1..])) by {
        CalcCharsByItems(t, r', s[1..], size);
      }
    } else {
      var n := Accumulated(r);
      var it := Item(CountOf(r), s[0]);
      assert (if n == 0 then 1 else n) == it.count by {
        CountOfAccumulated(r);
      }
      assert Items(t, r + s) == if s[0] !in t.codes then Err(BadChar(s[0])) else Prepend(it, Items(t, s[1..])) by {
        ItemsAfterRun(t, r, s);
      }
      CalcCharsByItemsAtCode(t, it, s, n, size);
    }
  }

  /** One code character, closing the item `it`. */
  lemma {:induction false} CalcCharsByItemsAtCode(t: Tables, it: Item, s: string, n: nat, size: nat)
    requires s != [] && !IsCountDigit(s[0])
    requires it == Item(if n == 0 then 1 else n, s[0])
    ensures CalcChars(t, s, n, size) ==
      if s[0] !in t.codes then Err(BadChar(s[0])) else SizeAfter(size, t, Prepend(it, Items(t, s[1..])))
    decreases |s|, 0
  {
    if s[0] in t.codes {
      var w := Span(it.count, t.width(it.code));
      assert CalcChars(t, s, n, size) == CalcChars(t, s[1..], 0, size + w) by {
        SpanIsProduct(it.count, t.width(it.code));
      }
      assert CalcChars(t, s[1..], 0, size + w) == SizeAfter(size + w, t, Items(t, s[1..])) by {
        assert [] + s[1..] == s[1..];
        CalcCharsByItems(t, [], s[1..], size + w);
      }
      SizeAfterPrepend(size, t, it, Items(t, s[1..]));
    }
  }

  lemma SizeAfterPrepend(size: nat, t: Tables, it: Item, r: Result<seq<Item>, Error>)
    ensures SizeAfter(size, t, Prepend(it, r)) == SizeAfter(size + Span(it.count, t.width(it.code)), t, r)
  {
    match r {
      case Err(_) =>
      case Ok(rest) => assert ([it] + rest)[1..] == rest;
    }
  }

  // ----- Properties of the grammar and the size -----

  predicate IsBadChar(t: Tables, c: char) {
    !IsCountDigit(c) && c !in t.codes
  }

  /** Parsing fails exactly when some character is neither a count digit nor
      a type code, and the error names the first such character. */
  lemma {:induction false} ItemsFailAtFirstBadChar(t: Tables, s: string)
    ensures Items(t, s).Err? <==> exists i :: 0 <= i < |s| && IsBadChar(t, s[i])
    ensures Items(t, s).Err? ==>
      exists i :: 0 <= i < |s| && IsBadChar(t, s[i]) && Items(t, s).error == BadChar(s[i]) &&
        forall j :: 0 <= j < i ==> !IsBadChar(t, s[j])
    decreases |s|, 1
  {
    var k := RunLength(s);
    assert forall j :: 0 <= j < k ==> s[..k][j] == s[j];
    if k == |s| {
      assert forall i :: 0 <= i < |s| ==> !IsBadChar(t, s[i]);
    } else if s[k] !in t.codes {
      assert IsBadChar(t, s[k]);
    } else {
      ItemsFailAfterItem(t, s, k);
    }
  }

  /** The case of a first item that parses, with the code at index `k`. */
  lemma {:induction false} ItemsFailAfterItem(t: Tables, s: string, k: nat)
    requires k == RunLength(s) && k < |s| && s[k] in t.codes
    requires forall j :: 0 <= j < k ==> IsCountDigit(s[j])
    ensures Items(t, s).Err? <==> exists i :: 0 <= i < |s| && IsBadChar(t, s[i])
    ensures Items(t, s).Err? ==>
      exists i :: 0 <= i < |s| && IsBadChar(t, s[i]) && Items(t, s).error == BadChar(s[i]) &&
        forall j :: 0 <= j < i ==> !IsBadChar(t, s[j])
    decreases |s|, 0
  {
    var tail := s[k + 1..];
    assert Items(t, s).Err? <==> Items(t, tail).Err?;
    assert Items(t, s).Err? ==> Items(t, s).error == Items(t, tail).error;
    assert forall j :: 0 <= j < |tail| ==> tail[j] == s[k + 1 + j];
    assert forall j :: 0 <= j <= k ==> !IsBadChar(t, s[j]);
    if Items(t, tail).Err? {
      var i :| 0 <= i < |tail| && IsBadChar(t, tail[i]) && Items(t, tail).error == BadChar(tail[i]) &&
        forall j :: 0 <= j < i ==> !IsBadChar(t, tail[j]) by {
        ItemsFailAtFirstBadChar(t, tail);
      }
      assert IsBadChar(t, s[k + 1 + i]);
      forall j | k < j < k + 1 + i ensures !IsBadChar(t, s[j]) {
        assert s[j] == tail[j - k - 1];
      }
    } else {
      assert !exists i :: 0 <= i < |tail| && IsBadChar(t, tail[i]) by {
        ItemsFailAtFirstBadChar(t, tail);
      }
      forall i | k < i < |s| ensures !IsBadChar(t, s[i]) {
        assert s[i] == tail[i - k - 1];
      }
    }
  }

  /** CalcSize fails exactly when the body holds a bad character, naming the first. */
  lemma CalcSizeFailsAtFirstBadChar(t: Tables, format: string)
    requires |format| > 0
    ensures var body := Body(t, format);
      SizeSpec(t, format).Err? <==> exists i :: 0 <= i < |body| && IsBadChar(t, body[i])
    ensures var body := Body(t, format);
      SizeSpec(t, format).Err? ==>
        exists i :: 0 <= i < |body| && IsBadChar(t, body[i]) && SizeSpec(t, format).error == BadChar(body[i]) &&
          forall j :: 0 <= j < i ==> !IsBadChar(t, body[j])
  {
    ItemsFailAtFirstBadChar(t, Body(t, format));
  }

  /** An order character is stripped only at index 0: anywhere else it is
      looked up as a type code. */
  lemma PrefixOnlyAtStart(t: Tables, format: string, i: nat)
    requires 1 <= i < |format|
    requires format[i] in t.prefixes && IsBadChar(t, format[i])
    ensures SizeSpec(t, format).Err?
  {
    var body := Body(t, format);
    var j := if HasPrefix(t, format) then i - 1 else i;
    assert body[j] == format[i];
    CalcSizeFailsAtFirstBadChar(t, format);
  }

  /** Digits at the end of a format, with no code after them, add nothing. */
  lemma {:induction false} TrailingDigitsAddNothing(t: Tables, s: string, ds: string)
    requires AllCountDigits(ds)
    ensures Items(t, s + ds) == Items(t, s)
    decreases |s|
  {
    var k := RunLength(s);
    if k == |s| {
      assert AllCountDigits(s) by {
        assert s[..k] == s;
      }
      assert AllCountDigits(s + ds);
      AllDigitsHaveNoItems(t, s + ds);
      AllDigitsHaveNoItems(t, s);
    } else {
      var run := s[..k];
      var rest := s[k..];
      var it := Item(CountOf(run), rest[0]);
      assert s == run + rest;
      assert s + ds == run + (rest + ds);
      assert Items(t, s) == if rest[0] !in t.codes then Err(BadChar(rest[0])) else Prepend(it, Items(t, rest[1..])) by {
        ItemsAfterRun(t, run, rest);
      }
      assert Items(t, s + ds) == if rest[0] !in t.codes then Err(BadChar(rest[0])) else Prepend(it, Items(t, rest[1..] + ds)) by {
        ItemsAfterRun(t, run, rest + ds);
        assert (rest + ds)[1..] == rest[1..] + ds;
      }
      assert Items(t, rest[1..] + ds) == Items(t, rest[1..]) by {
        TrailingDigitsAddNothing(t, rest[1..], ds);
      }
    }
  }

  function ConcatItems(a: Result<seq<Item>, Error>, b: Result<seq<Item>, Error>): Result<seq<Item>, Error> {
    match a
    case Err(e) => Err(e)
    case Ok(x) =>
      match b
      case Err(e) => Err(e)
      case Ok(y) => Ok(x + y)
  }

  /** Two bodies side by side parse to the items of each, in order, provided
      the first does not end in a count waiting for its code. */
  lemma {:induction false} ItemsOfConcat(t: Tables, a: string, b: string)
    requires !TrailingDigits(a)
    ensures Items(t, a + b) == ConcatItems(Items(t, a), Items(t, b))
    decreases |a|
  {
    if a == [] {
      assert a + b == b;
      assert Items(t, a) == Ok([]);
      if Items(t, b).Ok? {
        assert [] + Items(t, b).value == Items(t, b).value;
      }
    } else {
      var k := RunLengthBeforeLast(a);
      var run, rest := a[..k], a[k..];
      var it := Item(CountOf(run), rest[0]);
      assert a == run + rest;
      assert Items(t, a + b) == if rest[0] !in t.codes then Err(BadChar(rest[0])) else Prepend(it, Items(t, rest[1..] + b)) by {
        SplitAtRun(t, run, rest, b);
      }
      assert Items(t, a) == if rest[0] !in t.codes then Err(BadChar(rest[0])) else Prepend(it, Items(t, rest[1..])) by {
        ItemsAfterRun(t, run, rest);
      }
      if rest[0] in t.codes {
        assert !TrailingDigits(rest[1..]) by {
          if rest[1..] != [] {
            assert rest[1..][|rest[1..]| - 1] == a[|a| - 1];
          }
        }
        assert Items(t, rest[1..] + b) == ConcatItems(Items(t, rest[1..]), Items(t, b)) by {
          ItemsOfConcat(t, rest[1..], b);
        }
        ConcatPrepend(it, Items(t, rest[1..]), Items(t, b));
      }
    }
  }

  lemma RunLengthBeforeLast(a: string) returns (k: nat)
    requires a != [] && !TrailingDigits(a)
    ensures k == RunLength(a) && k < |a|
  {
    k := RunLength(a);
  }

  lemma SplitAtRun(t: Tables, run: string, rest: string, b: string)
    requires AllCountDigits(run)
    requires rest != [] && !IsCountDigit(rest[0])
    ensures Items(t, run + rest + b) ==
      if rest[0] !in t.codes then Err(BadChar(rest[0]))
      else Prepend(Item(CountOf(run), rest[0]), Items(t, rest[1..] + b))
  {
    var rest' := rest + b;
    ItemsAfterRun(t, run, rest');
    assert run + rest + b == run + rest';
    assert rest'[1..] == rest[1..] + b;
  }

  lemma ConcatPrepend(it: Item, x: Result<seq<Item>, Error>, y: Result<seq<Item>, Error>)
    ensures ConcatItems(Prepend(it, x), y) == Prepend(it, ConcatItems(x, y))
  {
    if x.Ok? && y.Ok? {
      assert [it] + (x.value + y.value) == ([it] + x.value) + y.value;
    }
  }

  lemma {:induction false} SizeOfConcat(t: Tables, x: seq<Item>, y: seq<Item>)
    ensures SizeOf(t, x + y) == SizeOf(t, x) + SizeOf(t, y)
    decreases |x|
  {
    if x == [] {
      assert x + y == y;
    } else {
      assert (x + y)[1..] == x[1..] + y;
      SizeOfConcat(t, x[1..], y);
    }
  }

  /** The size of two formats written one after the other is the sum of
      their sizes, when the second has no order character of its own and the
      first does not end in a dangling count. */
  lemma SizeIsAdditive(t: Tables, f1: string, f2: string)
    requires |f1| > 0 && |f2| > 0
    requires !HasPrefix(t, f2) && !TrailingDigits(Body(t, f1))
    requires SizeSpec(t, f1).Ok? && SizeSpec(t, f2).Ok?
    ensures SizeSpec(t, f1 + f2) == Ok(SizeSpec(t, f1).value + SizeSpec(t, f2).value)
  {
    var b1 := Body(t, f1);
    assert Body(t, f1 + f2) == b1 + f2 by {
      assert (f1 + f2)[0] == f1[0];
      if HasPrefix(t, f1) {
        assert (f1 + f2)[1..] == f1[1..] + f2;
      }
    }
    assert Body(t, f2) == f2;
    var x, y := Items(t, b1).value, Items(t, f2).value;
    assert SizeSpec(t, f1) == Ok(SizeOf(t, x)) && SizeSpec(t, f2) == Ok(SizeOf(t, y));
    assert Items(t, b1 + f2) == Ok(x + y) by {
      ItemsOfConcat(t, b1, f2);
    }
    assert SizeSpec(t, f1 + f2) == Ok(SizeOf(t, x + y));
    assert SizeOf(t, x + y) == SizeOf(t, x) + SizeOf(t, y) by {
      SizeOfConcat(t, x, y);
    }
  }
}
