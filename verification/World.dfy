/** The environment: whatever a clock, a signal, a descriptor or another process may answer. */
module World {
  import opened Bytes

  method Happens() returns (b: bool) {
    b := *;
  }

  method AnyCount() returns (n: nat) {
    n :| n >= 0;
  }

  method AnyBytes(most: nat) returns (s: seq<byte>)
    ensures |s| <= most
  {
    var none: seq<byte> := [];
    assert |none| <= most;
    s :| |s| <= most;
  }
}
