/** Utils.cs: growing a byte array by appending to it.
    `Array.Resize(ref target, n)` allocates a fresh array of length n, copies the old contents
    into its front, and makes `target` refer to it; `Array.Copy` then fills the tail. The `ref`
    parameter is modelled as the array's contents going in and coming out, null as `None`. */
module Utils {
  import opened Base

  /** The contents of a possibly null byte array, null read as empty (Utils.cs:31-32). */
  function OrEmpty(target: Option<seq<byte>>): (s: seq<byte>)
    ensures target.None? ==> s == []
    ensures target.Some? ==> s == target.value
  {
    if target.Some? then target.value else []
  }

  /** `AddToArray(byte[] fromValue, ref byte[] targetArray)`: resize the target by
      |fromValue| and copy fromValue into the new tail. */
  method AddToArray(fromValue: seq<byte>, targetArray: Option<seq<byte>>) returns (r: seq<byte>)
    ensures r == OrEmpty(targetArray) + fromValue
    ensures |r| == |OrEmpty(targetArray)| + |fromValue|
    ensures r[..|OrEmpty(targetArray)|] == OrEmpty(targetArray)
  {
    var old_ := OrEmpty(targetArray);
    var resized := new byte[|old_| + |fromValue|];
    // Array.Resize: the old contents move to the front of the new array
    var i := 0;
    while i < |old_|
      invariant 0 <= i <= |old_|
      invariant resized[..i] == old_[..i]
    {
      resized[i] := old_[i];
      i := i + 1;
    }
    // Array.Copy(fromValue, 0, targetArray, targetArray.Length - fromValue.Length, fromValue.Length)
    var j := 0;
    while j < |fromValue|
      invariant 0 <= j <= |fromValue|
      invariant resized[..|old_|] == old_
      invariant resized[|old_|..|old_| + j] == fromValue[..j]
    {
      resized[|old_| + j] := fromValue[j];
      j := j + 1;
    }
    r := resized[..];
    assert r == r[..|old_|] + r[|old_|..];
  }

  /** `AddToArray(byte fromValue, ref byte[] targetValue)`: append exactly one byte. */
  method AddByteToArray(fromValue: byte, targetValue: Option<seq<byte>>) returns (r: seq<byte>)
    ensures r == OrEmpty(targetValue) + [fromValue]
    ensures |r| == |OrEmpty(targetValue)| + 1
    ensures r[..|OrEmpty(targetValue)|] == OrEmpty(targetValue)
  {
    r := AddToArray([fromValue], targetValue);
  }
}
