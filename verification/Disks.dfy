/** The sub-files of a torrent on disk, addressed by their place in the torrent. */
module Disks {
  import opened Layout
  import opened Storage
  import opened Basics

  /** The files have the lengths of the sub-files and follow each other without gaps. */
  ghost predicate Placed<T>(subs: seq<SubFile>, files: seq<seq<T>>) {
    |files| == |subs| && forall k :: 0 <= k < |subs| ==> |files[k]| == subs[k].size && subs[k].offset == Off(files, k)
  }

  lemma PlacedSub<T>(subs: seq<SubFile>, files: seq<seq<T>>, k: nat)
    requires Placed(subs, files) && k < |subs|
    ensures |files| == |subs| && |files[k]| == subs[k].size && subs[k].offset == Off(files, k)
    ensures Off(files, k + 1) == subs[k].End() <= |Concat(files)|
    ensures k + 1 == |subs| ==> subs[k].End() == |Concat(files)|
  {
    OffStep(files, k);
    ConcatLength(files);
    ReadFile(files, k, |files[k]|, 0);
  }

  lemma PlacedStart<T>(subs: seq<SubFile>, files: seq<seq<T>>)
    requires Placed(subs, files)
    ensures |files| == |subs| && Off(files, 0) == 0 && (subs == [] ==> |Concat(files)| == 0)
  {
  }

  /** Appending what sub-file `k` has from address `offset` on to what lies before. */
  lemma ReadOn<T>(subs: seq<SubFile>, files: seq<seq<T>>, k: nat, offset0: nat, offset: nat, cb: nat, d: seq<T>)
    requires Placed(subs, files) && k < |subs| && subs[k].offset <= offset &&
      offset + cb <= subs[k].End() <= |Concat(files)|
    requires offset0 <= offset && |d| == offset - offset0 && (d != [] ==> d == Concat(files)[offset0..offset])
    ensures var o := offset - subs[k].offset;
      o + cb <= |files[k]| && d + files[k][o..o + cb] == Concat(files)[offset0..offset + cb]
  {
    hide Off, Concat;
    var o, flat := offset - subs[k].offset, Concat(files);
    ReadFile(files, k, o, cb);
    assert flat[offset0..offset + cb] == flat[offset0..offset] + flat[offset..offset + cb];
  }

  /** Writing the next part of `s` into sub-file `k`. */
  lemma WriteOn<T>(subs: seq<SubFile>, files0: seq<seq<T>>, files: seq<seq<T>>, k: nat, offset0: nat, s: seq<T>,
                   done: nat, cb: nat)
    requires Placed(subs, files) && k < |subs| && done + cb <= |s| && offset0 + |s| <= |Concat(files0)|
    requires Concat(files) == Splice(Concat(files0), offset0, s[..done])
    requires subs[k].offset <= offset0 + done && offset0 + done + cb <= subs[k].End() && |files| == |subs|
    ensures var o := offset0 + done - subs[k].offset;
      o + cb <= |files[k]| &&
      var files' := files[k := Splice(files[k], o, s[done..done + cb])];
      Placed(subs, files') && Concat(files') == Splice(Concat(files0), offset0, s[..done + cb]) &&
      forall j :: 0 <= j <= |files| ==> Off(files', j) == Off(files, j)
  {
    hide Off, Concat;
    var o, t := offset0 + done - subs[k].offset, s[done..done + cb];
    var files' := files[k := Splice(files[k], o, t)];
    WriteFile(files, k, o, t);
    SpliceTwice(Concat(files0), offset0, s[..done], t);
    assert s[..done] + t == s[..done + cb];
    SameOffsets(files, files');
  }

  lemma SameOffsets<T>(fs: seq<seq<T>>, gs: seq<seq<T>>)
    requires |fs| == |gs| && forall j :: 0 <= j < |fs| ==> |fs[j]| == |gs[j]|
    ensures forall j :: 0 <= j <= |fs| ==> Off(gs, j) == Off(fs, j)
  {
    forall j | 0 <= j <= |fs| ensures Off(gs, j) == Off(fs, j) {
      OffSame(fs, gs, j);
    }
  }

  lemma {:induction false} OffSame<T>(fs: seq<seq<T>>, gs: seq<seq<T>>, k: nat)
    requires |fs| == |gs| && k <= |fs| && forall j :: 0 <= j < |fs| ==> |fs[j]| == |gs[j]|
    ensures Off(fs, k) == Off(gs, k)
    decreases k
  {
    if k > 0 { OffSame(fs[1..], gs[1..], k - 1); }
  }

  class Disk {
    const subs: seq<SubFile>
    var files: seq<seq<byte>>

    ghost predicate Valid()
      reads this
    {
      Placed(subs, files)
    }

    /** The torrent as one byte string. */
    ghost function Flat(): (s: seq<byte>)
      reads this
    {
      Concat(files)
    }

    constructor (subs: seq<SubFile>, files: seq<seq<byte>>)
      requires Placed(subs, files)
      ensures Valid() && this.subs == subs && this.files == files
    {
      this.subs := subs;
      this.files := files;
    }

    /** Bytes `offset0` to `offset0 + size0` of the torrent, collected from the sub-files. */
    method ReadData(offset0: nat, size0: nat) returns (ok: bool, d: seq<byte>)
      requires Valid()
      ensures ok <==> offset0 + size0 <= |Flat()| && offset0 < |Flat()|
      ensures ok ==> d == Flat()[offset0..offset0 + size0]
    {
      hide Off, Concat, Placed;
      var fs := files;
      ghost var flat := Concat(fs);
      var offset, size, k := offset0, size0, 0;
      d := [];
      PlacedStart(subs, fs);
      while k < |subs|
        invariant 0 <= k <= |subs| == |fs| && Off(fs, k) <= |flat| && (k == |subs| ==> Off(fs, k) == |flat|)
        invariant offset == offset0 + |d| && size == size0 - |d| && Off(fs, k) <= offset
        invariant d != [] ==> |d| < size0 && offset == Off(fs, k) && d == flat[offset0..offset]
      {
        PlacedSub(subs, fs, k);
        if offset < subs[k].End() {
          var cb := Min(size, subs[k].End() - offset);
          ReadOn(subs, fs, k, offset0, offset, cb, d);
          d := d + fs[k][offset - subs[k].offset..offset - subs[k].offset + cb];
          size := size - cb;
          if size == 0 {
            return true, d;
          }
          offset := offset + cb;
        }
        k := k + 1;
      }
      ok := false;
    }

    /** Writes a block, scattered over the sub-files it belongs to: the block is then in its place and no other
        byte has changed. */
    method WriteBytes(offset0: nat, s: seq<byte>)
      requires Valid() && s != [] && offset0 + |s| <= |Flat()|
      modifies this
      ensures Valid() && Flat() == Splice(old(Flat()), offset0, s)
    {
      hide Off, Concat, Placed, Splice;
      var fs := files;
      ghost var flat := Concat(fs);
      var offset, size, k := offset0, |s|, 0;
      ghost var fs0, done := fs, 0;
      PlacedStart(subs, fs);
      SpliceNothing(flat, offset0);
      while k < |subs| && size != 0
        invariant Placed(subs, fs) && 0 <= k <= |subs| == |fs| && Off(fs, k) <= |flat| &&
                  (k == |subs| ==> Off(fs, k) == |flat|)
        invariant 0 <= done <= |s| && offset == offset0 + done && size == |s| - done
        invariant size != 0 ==> Off(fs, k) <= offset && (done == 0 || offset == Off(fs, k))
        invariant |Concat(fs)| == |flat| && Concat(fs) == Splice(flat, offset0, s[..done])
      {
        PlacedSub(subs, fs, k);
        if offset < subs[k].End() {
          var cb := Min(size, subs[k].End() - offset);
          WriteOn(subs, fs0, fs, k, offset0, s, done, cb);
          fs := fs[k := Splice(fs[k], offset - subs[k].offset, s[|s| - size..|s| - size + cb])];
          size, offset, done := size - cb, offset + cb, done + cb;
        }
        k := k + 1;
      }
      assert s[..done] == s;
      files := fs;
    }
  }

  lemma SpliceNothing<T>(s: seq<T>, o: nat)
    requires o <= |s|
    ensures Splice(s, o, []) == s
  {
  }
}
