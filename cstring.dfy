/**
  NUL-terminated byte strings as the kernel reads them (src/kernel.c,
  lines 45-50). A C string is modelled as the sequence of bytes readable
  from its start pointer; the C code demands that a zero byte occurs in it.
 */
module CStrings {

  /** The index of the first zero byte of `str`: the length of the C string. */
  function TerminatorIndex(str: seq<bv8>): (n: nat)
    requires 0 in str
    ensures n < |str| && str[n] == 0
    ensures forall i :: 0 <= i < n ==> str[i] != 0
  {
    if str[0] == 0 then 0
    else
      assert str == [str[0]] + str[1..];
      var m := TerminatorIndex(str[1..]);
      assert forall i :: 1 <= i < m + 1 ==> str[i] == str[1..][i - 1];
      m + 1
  }

  /** strlen: counts the bytes before the first zero byte. */
  method Strlen(str: seq<bv8>) returns (len: nat)
    requires 0 in str
    ensures len < |str| && str[len] == 0
    ensures forall i :: 0 <= i < len ==> str[i] != 0
    ensures len == TerminatorIndex(str)
  {
    ghost var end := TerminatorIndex(str);
    len := 0;
    while str[len] != 0
      invariant len <= end
      invariant forall i :: 0 <= i < len ==> str[i] != 0
      decreases end - len
    {
      len := len + 1;
    }
  }
}
