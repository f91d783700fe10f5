// What the other modules share.
module Common {
  datatype Option<T> = None | Some(value: T)

  function Min(x: int, y: int): int {
    if x < y then x else y
  }

  lemma Regroup<T>(a: seq<T>, b: seq<T>, c: seq<T>)
    ensures a + (b + c) == (a + b) + c
  {
  }
}

// Bytes as numbers, where the source calculates with them.
module Bytes {
  type byte = x: int | 0 <= x < 256

  function Zeros(n: nat): (s: seq<byte>)
    ensures |s| == n
  {
    seq(n, _ => 0)
  }
}

// Bytes and words as bit patterns, where the source shifts and masks them.
module Octets {
  import Bytes

  type byte = bv8
  type word = bv32

  function Zeros(n: nat): (s: seq<byte>)
    ensures |s| == n
  {
    seq(n, _ => 0)
  }

  // The same bytes as numbers.
  function Numbers(s: seq<byte>): (r: seq<Bytes.byte>)
    ensures |r| == |s|
  {
    seq(|s|, i requires 0 <= i < |s| => s[i] as int)
  }
}

// The fixed part of a PDU header and the sizes it announces (lib/pdu.c).
module PduHeader {
  import opened Bytes

  const RAW_HEADER_SIZE := 48
  const DIGEST_SIZE := 4

  // iscsi_get_pdu_data_size: the low 24 bits of the big-endian word at offset 4.
  function DataSize(h: seq<byte>): nat
    requires |h| >= RAW_HEADER_SIZE
  {
    h[5] as int * 0x1_0000 + h[6] as int * 0x100 + h[7] as int
  }

  function RoundUp4(n: nat): (r: nat)
    ensures n <= r < n + 4 && r % 4 == 0
  {
    (n + 3) / 4 * 4
  }
}
