/** One flat byte string scattered over a list of files. */
module Storage {

  function Concat<T>(fs: seq<seq<T>>): seq<T> {
    if fs == [] then [] else fs[0] + Concat(fs[1..])
  }

  /** Where file `k` begins in the flat string. */
  function Off<T>(fs: seq<seq<T>>, k: nat): nat
    requires k <= |fs|
  {
    if k == 0 then 0 else |fs[0]| + Off(fs[1..], k - 1)
  }

  /** `s` with the elements from `o` on replaced by `t`. */
  function Splice<T>(s: seq<T>, o: nat, t: seq<T>): (r: seq<T>)
    requires o + |t| <= |s|
    ensures |r| == |s| && r[o..o + |t|] == t
    ensures forall j :: 0 <= j < |s| && !(o <= j < o + |t|) ==> r[j] == s[j]
  {
    s[..o] + t + s[o + |t|..]
  }

  lemma {:induction false} ReadFile<T>(fs: seq<seq<T>>, k: nat, o: nat, n: nat)
    requires k < |fs| && o + n <= |fs[k]|
    ensures Off(fs, k) + o + n <= |Concat(fs)|
    ensures Concat(fs)[Off(fs, k) + o..Off(fs, k) + o + n] == fs[k][o..o + n]
    decreases |fs|
  {
    if k > 0 {
      ReadFile(fs[1..], k - 1, o, n);
      var b, rest := Off(fs[1..], k - 1) + o, Concat(fs[1..]);
      assert (fs[0] + rest)[|fs[0]| + b..|fs[0]| + b + n] == rest[b..b + n];
    }
  }

  lemma SpliceAfter<T>(a: seq<T>, s: seq<T>, o: nat, t: seq<T>)
    requires o + |t| <= |s|
    ensures a + Splice(s, o, t) == Splice(a + s, |a| + o, t)
  {
  }

  lemma SpliceBefore<T>(s: seq<T>, o: nat, t: seq<T>, b: seq<T>)
    requires o + |t| <= |s|
    ensures Splice(s, o, t) + b == Splice(s + b, o, t)
  {
  }

  lemma {:induction false} WriteFile<T>(fs: seq<seq<T>>, k: nat, o: nat, t: seq<T>)
    requires k < |fs| && o + |t| <= |fs[k]|
    ensures Off(fs, k) + o + |t| <= |Concat(fs)|
    ensures Concat(fs[k := Splice(fs[k], o, t)]) == Splice(Concat(fs), Off(fs, k) + o, t)
    decreases |fs|
  {
    hide Splice;
    var f := Splice(fs[k], o, t);
    var fs', rest := fs[k := f], Concat(fs[1..]);
    if k > 0 {
      WriteFile(fs[1..], k - 1, o, t);
      assert fs'[1..] == fs[1..][k - 1 := f];
      SpliceAfter(fs[0], rest, Off(fs[1..], k - 1) + o, t);
    } else {
      assert fs'[1..] == fs[1..];
      SpliceBefore(fs[0], o, t, rest);
    }
  }

  /** Writing a string in two consecutive parts. */
  lemma SpliceTwice<T>(s: seq<T>, o: nat, t: seq<T>, u: seq<T>)
    requires o + |t| + |u| <= |s|
    ensures Splice(Splice(s, o, t), o + |t|, u) == Splice(s, o, t + u)
  {
  }

  lemma {:induction false} ConcatLength<T>(fs: seq<seq<T>>)
    ensures |Concat(fs)| == Off(fs, |fs|)
  {
    if fs != [] { ConcatLength(fs[1..]); }
  }

  lemma {:induction false} OffStep<T>(fs: seq<seq<T>>, k: nat)
    requires k < |fs|
    ensures Off(fs, k + 1) == Off(fs, k) + |fs[k]|
    decreases |fs|
  {
    if k > 0 { OffStep(fs[1..], k - 1); }
  }
}
