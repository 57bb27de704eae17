/** Widths, constants and small shared datatypes of the image format. */
module SquashDefs {

  type U8 = n: int | 0 <= n < 0x100
  type U16 = n: int | 0 <= n < 0x1_0000
  type U32 = n: int | 0 <= n < 0x1_0000_0000
  type U64 = n: int | 0 <= n < 0x1_0000_0000_0000_0000

  type Bytes = seq<U8>

  const SUPER_SIZE: nat := 96
  const META_SIZE: nat := 8192
  const META_STORED_BIT: nat := 0x8000
  const BLOCK_STORED_BIT: nat := 0x100_0000
  const MAX_BLOCK_SIZE: nat := 0x10_0000
  const FRAGMENT_NONE: U32 := 0xffff_ffff
  const XATTR_NONE: U32 := 0xffff_ffff

  const TYPE_DIR: U16 := 8
  const TYPE_REG: U16 := 9
  const TYPE_SYM: U16 := 10
  const TYPE_BLK: U16 := 11
  const TYPE_CHR: U16 := 12
  const TYPE_PIPE: U16 := 13
  const TYPE_SOCK: U16 := 14

  datatype Option<+T> = None | Some(value: T) {
    predicate IsFailure() {
      None?
    }

    function PropagateFailure<U>(): Option<U>
      requires None?
    {
      None
    }

    function Extract(): T
      requires Some?
    {
      value
    }
  }

  function Zeros(n: nat): (z: Bytes)
    ensures |z| == n
  {
    seq(n, _ => 0)
  }

  function Last<T>(s: seq<T>): T
    requires s != []
  {
    s[|s| - 1]
  }

  function Init<T>(s: seq<T>): seq<T>
    requires s != []
  {
    s[..|s| - 1]
  }

  /** The bytes at `[pos, pos + len)`, or nothing at all when the range runs past the end. */
  function Slice(bytes: Bytes, pos: nat, len: nat): Bytes {
    if pos + len <= |bytes| then bytes[pos..pos + len] else []
  }

  lemma SubSlice<T>(s: seq<T>, lo: nat, hi: nat, c: nat, d: nat)
    requires lo <= hi <= |s| && c <= d <= hi - lo
    ensures s[lo..hi][c..d] == s[lo + c..lo + d]
  {
    var mid := s[lo..hi];
    assert forall k :: 0 <= k < d - c ==> mid[c..d][k] == s[lo + c..lo + d][k];
  }
}
