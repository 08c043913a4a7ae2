/** Durable file primitives. The operating system may accept fewer bytes than
    offered, and the process may die before any system call; both are chosen by
    the `grants` a caller passes, so every contract holds for every such choice. */
module FsAtomic {
  import opened Common
  import opened Lines

  /** One file name and the bytes behind it. */
  class DiskFile {
    var present: bool
    var content: bytes

    constructor (present: bool, content: bytes)
      ensures this.present == present && this.content == content
    {
      this.present := present;
      this.content := content;
    }
  }

  /** How many of `offered` bytes one write call takes: at least one. */
  function Accepted(grant: nat, offered: nat): (n: nat)
    requires offered > 0
    ensures 1 <= n <= offered
  {
    if grant == 0 then 1 else if grant > offered then offered else grant
  }

  /** Append `data`; `grants[i]` is what the i-th write call takes, and the process dies when they run out. */
  method AppendFileDurable(f: DiskFile, data: bytes, grants: seq<nat>) returns (done: bool, ghost landed: nat)
    modifies f
    ensures landed <= |data| && f.content == old(if f.present then f.content else []) + data[..landed]
    ensures f.present
    ensures done ==> landed == |data|
    ensures |grants| >= |data| ==> done
  {
    if !f.present {
      f.present := true;
      f.content := [];
    }
    ghost var before := f.content;
    var written := 0;
    var call := 0;
    done := true;
    while written < |data| && done
      invariant written <= |data| && call <= |grants| && call <= written
      invariant f.present && f.content == before + data[..written]
      invariant !done ==> |grants| < |data|
      decreases |data| - written, done
    {
      if call == |grants| {
        done := false;
      } else {
        var n := Accepted(grants[call], |data| - written);
        assert data[..written + n] == data[..written] + data[written..written + n];
        f.content := f.content + data[written..written + n];
        written := written + n;
        call := call + 1;
      }
    }
    landed := written;
  }

  /** Whole-file replacement: fill a temporary file, then rename it over the destination.
      `renamed` is false when the process dies before the rename. */
  method WriteFileAtomic(f: DiskFile, data: bytes, grants: seq<nat>, renames: bool) returns (renamed: bool)
    modifies f
    ensures f.content == (if renamed then data else old(f.content))
    ensures f.present == (renamed || old(f.present))
    ensures renamed ==> renames
    ensures renames && |grants| >= |data| ==> renamed
  {
    var tmp := new DiskFile(true, []);
    var written := 0;
    var call := 0;
    while written < |data| && call < |grants|
      invariant written <= |data| && call <= |grants| && call <= written
      invariant tmp.content == data[..written]
      invariant fresh(tmp) && tmp != f && f.content == old(f.content) && f.present == old(f.present)
    {
      var n := Accepted(grants[call], |data| - written);
      assert data[..written + n] == data[..written] + data[written..written + n];
      tmp.content := tmp.content + data[written..written + n];
      written := written + n;
      call := call + 1;
    }
    renamed := written == |data| && renames;
    if renamed {
      f.present := true;
      f.content := tmp.content;
    }
  }
}
