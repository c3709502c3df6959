/** Copying a growing TLS key log into the capture file, piece by piece. */
module Keylog {
  import opened Records

  /** What is on disk when the log is read, if it can be read, and whether the block that follows can be written. */
  datatype Poll = Poll(file: Option<Bytes>, canWrite: bool)

  /** How much of the file has been copied, and the secrets blocks of the capture file. */
  datatype Copied = Copied(offset: nat, blocks: seq<Bytes>)

  function Concat(blocks: seq<Bytes>): Bytes {
    if blocks == [] then [] else Concat(blocks[..|blocks|-1]) + blocks[|blocks|-1]
  }

  lemma ConcatSnoc(blocks: seq<Bytes>, data: Bytes)
    ensures Concat(blocks + [data]) == Concat(blocks) + data
  {
    assert (blocks + [data])[..|blocks|] == blocks;
  }

  /** What lies past the offset goes out as one block, and the offset moves only when the write succeeds. */
  function Copy(c: Copied, p: Poll): Copied {
    if p.file.None? || |p.file.value| <= c.offset || !p.canWrite then c
    else Copied(|p.file.value|, c.blocks + [p.file.value[c.offset..]])
  }

  function CopyAll(polls: seq<Poll>): Copied {
    if polls == [] then Copied(0, []) else Copy(CopyAll(polls[..|polls|-1]), polls[|polls|-1])
  }

  /** Every version of the log that was read is a beginning of `file`, as for a file that only grows. */
  predicate VersionsOf(polls: seq<Poll>, file: Bytes) {
    forall i | 0 <= i < |polls| && polls[i].file.Some? :: polls[i].file.value <= file
  }

  /** Over any sequence of reads and failed writes, the blocks put together are the file up to the offset, with no gap
      and no repetition; every version that was read when a write was possible is covered; and no block is empty. */
  lemma {:induction false} CopyIsExact(polls: seq<Poll>, file: Bytes)
    requires VersionsOf(polls, file)
    ensures var c := CopyAll(polls);
      && c.offset <= |file| && Concat(c.blocks) == file[..c.offset]
      && (forall i | 0 <= i < |polls| && polls[i].file.Some? && polls[i].canWrite :: |polls[i].file.value| <= c.offset)
      && (forall block | block in c.blocks :: block != [])
  {
    if polls != [] {
      var init, last := polls[..|polls|-1], polls[|polls|-1];
      assert VersionsOf(init, file);
      CopyIsExact(init, file);
      var c, d := CopyAll(init), CopyAll(polls);
      if d != c {
        var version := last.file.value;
        ConcatSnoc(c.blocks, version[c.offset..]);
        assert version == file[..|version|];
        assert file[..c.offset] + version[c.offset..] == version;
      }
    }
  }

  class KeylogTailer {
    var keylogOffset: nat
    var blocks: seq<Bytes>
    ghost var polls: seq<Poll>

    ghost predicate Valid()
      reads this
    {
      Copied(keylogOffset, blocks) == CopyAll(polls)
    }

    constructor ()
      ensures Valid() && polls == []
    {
      keylogOffset, blocks, polls := 0, [], [];
    }

    method WriteDecryptionSecretsBlock(data: Bytes, canWrite: bool) returns (ok: bool)
      modifies this`blocks
      ensures ok == canWrite
      ensures blocks == if canWrite then old(blocks) + [data] else old(blocks)
    {
      if canWrite {
        blocks := blocks + [data];
      }
      ok := canWrite;
    }

    /** The first read, before the ticker starts; it fails when the log cannot be read or copied. */
    method Embed(p: Poll) returns (ok: bool)
      requires Valid() && polls == []
      modifies this
      ensures Valid() && polls == [p]
      ensures ok <==> p.file.Some? && (p.file.value == [] || p.canWrite)
      ensures ok ==> keylogOffset == |p.file.value|
    {
      polls := [p];
      assert [p][..0] == [];
      if p.file.None? {
        return false;
      }
      var content := p.file.value;
      if |content| == 0 {
        return true;
      }
      ok := WriteDecryptionSecretsBlock(content, p.canWrite);
      if ok {
        keylogOffset := |content|;
      }
    }

    /** One tick of the watcher: reads from the offset on. */
    method Watch(p: Poll)
      requires Valid()
      modifies this
      ensures Valid() && polls == old(polls) + [p]
      ensures old(blocks) <= blocks
    {
      assert (polls + [p])[..|polls|] == polls;
      polls := polls + [p];
      if p.file.None? {
        return;
      }
      // Reading from beyond the end of the file yields nothing.
      var data := if keylogOffset <= |p.file.value| then p.file.value[keylogOffset..] else [];
      if |data| == 0 {
        return;
      }
      var ok := WriteDecryptionSecretsBlock(data, p.canWrite);
      if ok {
        keylogOffset := keylogOffset + |data|;
      }
    }
  }
}
