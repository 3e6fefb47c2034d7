// memcpy between two blocks, on a memory of eight-byte words.
module TlsfCopy {
  import opened TlsfSizes
  import opened TlsfTags

  function ByteAt(m: Mem, at: nat): nat {
    Byte(Rd(m, at - at % 8), at % 8)
  }

  // Whole words first; of the last word only the leading bytes.
  function CopyBytes(m: Mem, src: nat, dst: nat, n: nat): Mem
    decreases n
  {
    if n == 0 then m
    else if n < 8 then m[dst := Mixed(Rd(m, dst), Rd(m, src), n)]
    else CopyBytes(m[dst := Rd(m, src)], src + 8, dst + 8, n - 8)
  }

  // Only the words that hold the n destination bytes change.
  lemma {:induction false} CopyElsewhere(m: Mem, src: nat, dst: nat, n: nat, w: nat)
    requires w < dst || w >= dst + n
    ensures Rd(CopyBytes(m, src, dst, n), w) == Rd(m, w)
    decreases n
  {
    if n >= 8 { CopyElsewhere(m[dst := Rd(m, src)], src + 8, dst + 8, n - 8, w); }
  }

  lemma WordOf(at: nat, i: nat)
    requires at % 8 == 0 && i < 8
    ensures (at + i) % 8 == i
  {
  }

  lemma SourceStays(m: Mem, dst: nat, word: nat, at: nat)
    requires dst % 8 == 0 && (at < dst || at >= dst + 8)
    ensures ByteAt(m[dst := word], at) == ByteAt(m, at)
  {
  }

  lemma {:induction false} CopiedByte(m: Mem, src: nat, dst: nat, n: nat, i: nat)
    requires src % 8 == 0 && dst % 8 == 0 && (src + n <= dst || dst + n <= src) && i < n
    ensures ByteAt(CopyBytes(m, src, dst, n), dst + i) == ByteAt(m, src + i)
    decreases n
  {
    hide Byte, Mixed;
    if i < 8 {
      WordOf(src, i);
      WordOf(dst, i);
    }
    if n < 8 {
      MixedByte(Rd(m, dst), Rd(m, src), n, i);
    } else {
      var next := m[dst := Rd(m, src)];
      if i < 8 {
        CopyElsewhere(next, src + 8, dst + 8, n - 8, dst);
      } else {
        CopiedByte(next, src + 8, dst + 8, n - 8, i - 8);
        SourceStays(m, dst, Rd(m, src), src + i);
      }
    }
  }
}
