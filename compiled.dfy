/** The compiled Struct object: a format bound once, with the module-level
    operations as methods. Its Pack and PackInto do not pass their
    arguments on, so they pack the format with no arguments at all. */
module Compiled {
  import opened Types
  import opened Format
  import opened Packer
  import PackProperties
  import opened Unpacker

  datatype Struct = Struct(format: string) {

    method CalcSize(t: Tables) returns (r: Result<nat, Error>)
      requires |format| > 0
      ensures r == SizeSpec(t, format)
    {
      r := Format.CalcSize(t, format);
    }

    /** Pack(intf...): `intf` is dropped, so the bytes are always empty. */
    method Pack(t: Tables, args: seq<Value>) returns (buffer: seq<byte>, err: Option<Error>)
      requires |format| > 0
      ensures buffer == [] && err == PackProperties.NoArgumentsError(t, format)
    {
      PackProperties.PackWithoutArguments(t, format);
      buffer, err := Packer.Pack(t, format, []);
    }

    /** PackInto(buffer, offset, intf...): `intf` is dropped; with nothing to
        write, a successful call only grows a buffer shorter than `offset`. */
    method PackInto(t: Tables, buffer: array<byte>, offset: int, args: seq<Value>)
        returns (r: array?<byte>, err: Option<Error>)
      requires |format| > 0
      modifies buffer
      ensures PackProperties.NoArgumentsError(t, format).Some? ==>
        r == null && err == PackProperties.NoArgumentsError(t, format) && unchanged(buffer)
      ensures PackProperties.NoArgumentsError(t, format).None? && offset < 0 ==>
        r == null && err == Some(NegativeOffset) && unchanged(buffer)
      ensures PackProperties.NoArgumentsError(t, format).None? && offset >= 0 ==>
        r != null && err == None && r[..] == Overlaid(old(buffer[..]), offset, [])
      ensures PackProperties.NoArgumentsError(t, format).None? && offset >= 0 ==> buffer[..] == old(buffer[..])
      ensures PackProperties.NoArgumentsError(t, format).None? && offset >= 0 ==>
        (offset <= buffer.Length ==> r == buffer) && (offset > buffer.Length ==> fresh(r))
    {
      PackProperties.PackWithoutArguments(t, format);
      r, err := Packer.PackInto(t, format, buffer, offset, []);
      if err.None? && offset >= 0 && offset <= buffer.Length {
        assert r[..] == old(buffer[..]) by {
          assert Overlaid(old(buffer[..]), offset, []) == old(buffer[..]);
        }
      }
    }

    method Unpack(t: Tables, buffer: seq<byte>) returns (r: Result<seq<Value>, Error>)
      requires |format| > 0
      ensures r == UnpackReference(t, format, buffer)
    {
      r := Unpacker.Unpack(t, format, buffer);
    }

    method UnpackFrom(t: Tables, buffer: seq<byte>, offset: int) returns (r: Result<seq<Value>, Error>)
      requires offset >= 0
      requires offset < |buffer| ==> |format| > 0
      ensures offset >= |buffer| ==> r == Err(OffsetOutOfRange)
      ensures offset < |buffer| ==> r == UnpackReference(t, format, buffer[offset..])
    {
      r := Unpacker.UnpackFrom(t, format, buffer, offset);
    }
  }
}
