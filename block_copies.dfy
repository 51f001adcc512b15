/** Runs of fixed-size block copies between two byte arrays of one length, as the
    texture tilers perform them: where each block lands, and when two runs cancel. */
module BlockCopies {

  import opened Numerics
  import opened Bytes

  /** Two `len`-byte ranges that do not overlap. */
  predicate Apart(p: int, q: int, len: int)
  {
    p + len <= q || q + len <= p
  }

  lemma SpliceAt(s: seq<byte>, off: int, piece: seq<byte>)
    requires InRange(s, off, |piece|)
    ensures Splice(s, off, piece)[off..off + |piece|] == piece
  {
  }

  lemma SpliceKeeps(s: seq<byte>, off: int, piece: seq<byte>, j: int, len: int)
    requires InRange(s, off, |piece|) && InRange(s, j, len) && Apart(off, j, |piece|) && len == |piece|
    ensures Splice(s, off, piece)[j..j + len] == s[j..j + len]
  {
  }

  /** Every copy is a whole `bpp`-byte range inside both arrays, and no two copies write the same bytes. */
  ghost predicate Fits(ps: seq<(int, int)>, len: int, bpp: int)
  {
    && bpp > 0
    && (forall i :: 0 <= i < |ps| ==> 0 <= ps[i].0 && ps[i].0 + bpp <= len && 0 <= ps[i].1 && ps[i].1 + bpp <= len)
    && (forall i, j :: 0 <= i < j < |ps| ==> Apart(ps[i].0, ps[j].0, bpp))
  }

  /** Each copy of `ps` has left its source bytes of `data` at its destination in `out`. */
  ghost predicate Wrote(out: seq<byte>, data: seq<byte>, ps: seq<(int, int)>, bpp: int)
  {
    forall i :: 0 <= i < |ps| ==>
      0 <= bpp && 0 <= ps[i].0 && ps[i].0 + bpp <= |out| && 0 <= ps[i].1 && ps[i].1 + bpp <= |data|
      && out[ps[i].0..ps[i].0 + bpp] == data[ps[i].1..ps[i].1 + bpp]
  }

  /** The copies `ps` applied in order to `output`, each copying `len` bytes of `data`
      from its source offset `.1` to its destination offset `.0` (one that does not
      fit is skipped). */
  function Spliced(data: seq<byte>, ps: seq<(int, int)>, len: int, output: seq<byte>): (r: seq<byte>)
    ensures |r| == |output|
  {
    if |ps| == 0 then output
    else
      var out := Spliced(data, ps[..|ps| - 1], len, output);
      var p := ps[|ps| - 1];
      if InRange(out, p.0, len) && InRange(data, p.1, len) then Splice(out, p.0, data[p.1..p.1 + len]) else out
  }

  /** Copies that fit each leave their source bytes at their destination. */
  lemma {:induction false} SplicedWrites(data: seq<byte>, ps: seq<(int, int)>, bpp: int, output: seq<byte>)
    requires |output| == |data| && Fits(ps, |data|, bpp)
    ensures Wrote(Spliced(data, ps, bpp, output), data, ps, bpp)
  {
    if |ps| > 0 {
      var init := ps[..|ps| - 1];
      assert Fits(init, |data|, bpp);
      SplicedWrites(data, init, bpp, output);
      WroteOneMore(data, ps, bpp, Spliced(data, init, bpp, output));
    }
  }

  /** Splicing the last copy over the output of the earlier ones. */
  lemma WroteOneMore(data: seq<byte>, ps: seq<(int, int)>, bpp: int, out: seq<byte>)
    requires |ps| > 0 && |out| == |data| && Fits(ps, |data|, bpp) && Wrote(out, data, ps[..|ps| - 1], bpp)
    ensures var p := ps[|ps| - 1];
            0 <= p.1 && p.1 + bpp <= |data| && InRange(out, p.0, bpp)
            && Wrote(Splice(out, p.0, data[p.1..p.1 + bpp]), data, ps, bpp)
  {
    var init := ps[..|ps| - 1];
    var a, b := ps[|ps| - 1].0, ps[|ps| - 1].1;
    assert 0 <= a && a + bpp <= |data| && 0 <= b && b + bpp <= |data| && bpp > 0;
    var piece := data[b..b + bpp];
    var res := Splice(out, a, piece);
    assert res[a..a + bpp] == piece by { SpliceAt(out, a, piece); }
    assert Wrote(res, data, init, bpp) by {
      assert forall i :: 0 <= i < |init| ==> Apart(init[i].0, a, bpp) by {
        forall i | 0 <= i < |init| ensures Apart(init[i].0, a, bpp) {
          assert init[i] == ps[i];
        }
      }
      SpliceKeepsAll(data, init, bpp, out, a, piece);
    }
    WroteSnoc(res, data, ps, bpp);
  }

  /** One more copy whose bytes are in place extends what was written. */
  lemma WroteSnoc(res: seq<byte>, data: seq<byte>, ps: seq<(int, int)>, bpp: int)
    requires |ps| > 0 && bpp >= 0 && Wrote(res, data, ps[..|ps| - 1], bpp)
    requires var p := ps[|ps| - 1];
             0 <= p.0 && p.0 + bpp <= |res| && 0 <= p.1 && p.1 + bpp <= |data|
             && res[p.0..p.0 + bpp] == data[p.1..p.1 + bpp]
    ensures Wrote(res, data, ps, bpp)
  {
    forall i | 0 <= i < |ps|
      ensures 0 <= ps[i].0 && ps[i].0 + bpp <= |res| && 0 <= ps[i].1 && ps[i].1 + bpp <= |data|
              && res[ps[i].0..ps[i].0 + bpp] == data[ps[i].1..ps[i].1 + bpp]
    {
      if i < |ps| - 1 {
        assert ps[i] == ps[..|ps| - 1][i];
      }
    }
  }

  /** A copy that overlaps none of the earlier ones keeps what they wrote. */
  lemma SpliceKeepsAll(data: seq<byte>, init: seq<(int, int)>, bpp: int, out: seq<byte>, a: int, piece: seq<byte>)
    requires InRange(out, a, |piece|) && |piece| == bpp
    requires Wrote(out, data, init, bpp)
    requires forall i :: 0 <= i < |init| ==> Apart(init[i].0, a, bpp)
    ensures Wrote(Splice(out, a, piece), data, init, bpp)
  {
    forall i | 0 <= i < |init|
      ensures Splice(out, a, piece)[init[i].0..init[i].0 + bpp] == data[init[i].1..init[i].1 + bpp]
    {
      SpliceKeeps(out, a, piece, init[i].0, bpp);
    }
  }

  /** Distinct cells of a grid of `bpp`-byte cells do not overlap. */
  lemma CellsApart(p: nat, q: nat, bpp: int)
    requires p != q && bpp > 0
    ensures Apart(p * bpp, q * bpp, bpp)
  {
    if p < q {
      MulLe(p + 1, q, bpp);
    } else {
      MulLe(q + 1, p, bpp);
    }
  }

  /** Cell `p` of `n` cells of `bpp` bytes lies inside `n * bpp` bytes. */
  lemma CellInside(p: nat, n: nat, bpp: int)
    requires p < n && bpp > 0
    ensures 0 <= p * bpp && p * bpp + bpp <= n * bpp
  {
    MulLe(p + 1, n, bpp);
  }

  /** Byte strings that agree cell by cell are equal. */
  lemma CellsDetermine(s: seq<byte>, t: seq<byte>, bpp: int, n: nat)
    requires bpp > 0 && |s| == n * bpp && |t| == n * bpp
    requires forall i :: 0 <= i < n ==> 0 <= i * bpp && i * bpp + bpp <= |s| && s[i * bpp..i * bpp + bpp] == t[i * bpp..i * bpp + bpp]
    ensures s == t
  {
    forall k | 0 <= k < |s|
      ensures s[k] == t[k]
    {
      CellByte(s, t, bpp, n, k);
    }
  }

  /** Byte `k` lies in cell `k / bpp`, so equal cells give equal bytes. */
  lemma CellByte(s: seq<byte>, t: seq<byte>, bpp: int, n: nat, k: int)
    requires bpp > 0 && |s| == n * bpp && |t| == n * bpp && 0 <= k < |s|
    requires forall i :: 0 <= i < n ==> 0 <= i * bpp && i * bpp + bpp <= |s| && s[i * bpp..i * bpp + bpp] == t[i * bpp..i * bpp + bpp]
    ensures s[k] == t[k]
  {
    CellOf(k, bpp, n);
    var i := k / bpp;
    var lo := i * bpp;
    var cs, ct := s[lo..lo + bpp], t[lo..lo + bpp];
    assert cs == ct;
    assert cs[k - lo] == s[k] && ct[k - lo] == t[k];
  }

  /** A cell survives two runs of copies when the second fetches it from where the first put it. */
  lemma CellReturns(data: seq<byte>, mid: seq<byte>, back: seq<byte>, ps: seq<(int, int)>, qs: seq<(int, int)>,
                    bpp: int, i: nat, c: int)
    requires i < |ps| && i < |qs| && Wrote(mid, data, ps, bpp) && Wrote(back, mid, qs, bpp)
    requires ps[i].0 == qs[i].1 && ps[i].1 == c && qs[i].0 == c
    ensures 0 <= c && c + bpp <= |back| && back[c..c + bpp] == data[c..c + bpp]
  {
  }

}
