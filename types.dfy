/** Values, errors and the lookup tables the codec is parameterised by.

    The type-code table, the width table, the byte-order table and the
    scalar/string encoders live outside pystruct.go; here they are one
    `Tables` value that every operation receives. */
module Types {

  newtype byte = b: int | 0 <= b < 256

  datatype Option<+T> = None | Some(value: T)

  datatype Result<+T, +E> = Ok(value: T) | Err(error: E)

  /** The dynamically typed arguments of Pack and results of Unpack. */
  datatype Value = Text(s: string) | Int(i: int) | Real(r: real) | Bool(b: bool)

  /** The byte order handed to the scalar encoders: the one selected by a
      leading order character, or the host's native order. */
  datatype Order = Native | Prefixed(prefix: char)

  /** One constructor per error message of pystruct.go. */
  datatype Error =
    | BadChar(c: char)            // bad char ('%c') in struct format
    | IndexError                  // number of interface items less than format requires
    | NotBytes                    // argument for 's' must be a bytes object
    | NotA(code: char)            // required argument is not an %s
    | ExtraItems(count: int)      // found %d extra items that wouldn't be parsed
    | NegativeOffset              // offset have to be >= 0
    | SizeMismatch(expected: int) // unpack requires a buffer of %d bytes
    | Eof                         // data content size less than format requires
    | OffsetOutOfRange            // offset is out of range

  /** The tables and helpers pystruct.go uses but does not define.
      - codes: the keys of CFormatMap;
      - width: alignmentMap (a missing key reads as 0, as a Go map does);
      - prefixes: the keys of OrderMap, also the characters getOrder accepts;
      - stringCode: the `String` type code;
      - buildValue: None stands for the nil slice it returns on a mismatch;
      - parseValue: None stands for the nil interface it may return. */
  datatype Tables = Tables(
    codes: set<char>,
    width: char -> nat,
    prefixes: set<char>,
    stringCode: char,
    buildValue: (Value, char, Order) -> Option<seq<byte>>,
    buildString: string -> seq<byte>,
    parseValue: (seq<byte>, char, Order) -> Option<Value>,
    parseString: seq<byte> -> string)

  /** A character strconv.Atoi accepts on its own. */
  predicate IsDigit(c: char) {
    '0' <= c <= '9'
  }

  /** A digit that addNum accumulates: every digit but '0'. */
  predicate IsCountDigit(c: char) {
    '1' <= c <= '9'
  }

  function DigitValue(c: char): nat {
    if IsDigit(c) then (c as int) - ('0' as int) else 0
  }

  /** addNum: the amount a character adds to the pending repeat count.
      The first digit is added as it is, every later one times ten; a '0'
      (or any non-digit) adds nothing and is then read as a type code. */
  function AddNum(num: nat, c: char): (add: nat)
    ensures add > 0 <==> IsCountDigit(c)
  {
    if IsDigit(c) then
      if num == 0 then DigitValue(c) else DigitValue(c) * 10
    else
      0
  }

  /** Whether the format starts with an order character: OrderMap lookup in
      CalcSize, getOrder in Pack and Unpack. */
  predicate HasPrefix(t: Tables, format: string)
    requires |format| > 0
  {
    format[0] in t.prefixes
  }

  /** The format with a leading order character removed (once, from index 0 only). */
  function Body(t: Tables, format: string): string
    requires |format| > 0
  {
    if HasPrefix(t, format) then format[1..] else format
  }

  /** The order getOrder selects, or the native order when it returns nil. */
  function OrderOf(t: Tables, format: string): (o: Order)
    requires |format| > 0
    ensures o.Prefixed? <==> HasPrefix(t, format)
    ensures o.Prefixed? ==> o.prefix == format[0] && o.prefix in t.prefixes
  {
    if HasPrefix(t, format) then Prefixed(format[0]) else Native
  }

  /** The format is its order character, when it has one, followed by the
      body; the order is the one that character names, or native. */
  lemma FormatSplits(t: Tables, format: string)
    requires |format| > 0
    ensures format == (if HasPrefix(t, format) then [format[0]] else []) + Body(t, format)
    ensures |Body(t, format)| == if HasPrefix(t, format) then |format| - 1 else |format|
  {
    if HasPrefix(t, format) {
      assert [format[0]] + format[1..] == format;
    }
  }
}
