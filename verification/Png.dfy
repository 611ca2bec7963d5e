/** mods/png.c: scanlines filtered the way that leaves the least behind, and the file around them. The
    inverse is the reconstruction of clause 9 of ISO/IEC 15948. */
module Png {
  import opened Bits
  import opened Stream
  import opened Checksums
  import opened CrcLaws
  import opened InflateSpec
  import opened Containers
  import opened Deflater

  const BPP: nat := 3

  // ---- one scanline ----

  function Abs(x: int): nat { if x < 0 then -x else x }

  /** pw_paeth: the neighbour nearest to left + above - above-left; of equals, left, then above. */
  function Paeth(a: byte, b: byte, c: byte): (r: byte)
    ensures r == a || r == b || r == c
    ensures var p := a + b - c; Abs(p - r) <= Abs(p - a) && Abs(p - r) <= Abs(p - b) && Abs(p - r) <= Abs(p - c)
    ensures var p := a + b - c;
            (Abs(p - r) == Abs(p - a) ==> r == a) && (Abs(p - r) == Abs(p - b) && Abs(p - b) < Abs(p - a) ==> r == b)
  {
    var p := a + b - c;
    var pa, pb, pc := Abs(p - a), Abs(p - b), Abs(p - c);
    if pa <= pb && pa <= pc then a else if pb <= pc then b else c
  }

  /** A byte of a row, or zero before its start; a row that is not there is all zeros. */
  function Left(row: seq<byte>, i: nat): byte
    requires i <= |row|
  {
    if i >= BPP then row[i - BPP] else 0
  }

  function Above(up: Option<seq<byte>>, i: nat): byte {
    if up.Some? && i < |up.value| then up.value[i] else 0
  }

  function AboveLeft(up: Option<seq<byte>>, i: nat): byte {
    if i >= BPP then Above(up, i - BPP) else 0
  }

  /** What filter `f` expects from the neighbours. */
  function Predict(f: nat, a: byte, b: byte, c: byte): byte {
    if f == 1 then a else if f == 2 then b else if f == 3 then (a + b) / 2 else if f == 4 then Paeth(a, b, c) else 0
  }

  /** `(unsigned char)v`. */
  function Wrap(v: int): (r: byte) { v % 256 }

  function Residual(f: nat, row: seq<byte>, up: Option<seq<byte>>, i: nat): byte
    requires i < |row|
  {
    Wrap(row[i] - Predict(f, Left(row, i), Above(up, i), AboveLeft(up, i)))
  }

  /** A byte read as signed, its sign dropped. */
  function Magnitude(v: byte): nat { if v < 128 then v else 256 - v }

  function Cost(s: seq<byte>): nat {
    if s == [] then 0 else Cost(s[..|s| - 1]) + Magnitude(s[|s| - 1])
  }

  function Filtered(f: nat, row: seq<byte>, up: Option<seq<byte>>): (d: seq<byte>)
    ensures |d| == |row|
  {
    seq(|row|, i requires 0 <= i < |row| => Residual(f, row, up, i))
  }

  /** The reconstruction functions of clause 9.2 of ISO/IEC 15948, each filter type by its own formula: `x` was
      sent, `a` stands to the left, `b` above, and `c` above to the left. */
  function Recon(f: nat, x: byte, a: byte, b: byte, c: byte): byte {
    match f
    case 1 => (x + a) % 256
    case 2 => (x + b) % 256
    case 3 => (x + (a + b) / 2) % 256
    case 4 => (x + PaethPredictor(a, b, c)) % 256
    case _ => x
  }

  /** Clause 9.4. */
  function PaethPredictor(a: byte, b: byte, c: byte): byte {
    var pa, pb, pc := Abs(b - c), Abs(a - c), Abs(a + b - c - c);
    if pa <= pb && pa <= pc then a else if pb <= pc then b else c
  }

  lemma {:induction false} PaethSame(a: byte, b: byte, c: byte)
    ensures PaethPredictor(a, b, c) == Paeth(a, b, c)
  {
  }

  /** A scanline rebuilt: each byte from what was sent and the bytes already rebuilt, a pixel of three bytes to
      the left and the line above; what is outside the picture is zero. */
  function Unfilter(f: nat, line: seq<byte>, up: Option<seq<byte>>): (row: seq<byte>)
    ensures |row| == |line|
  {
    if line == [] then []
    else
      var k := |line| - 1;
      var row := Unfilter(f, line[..k], up);
      var a := if k >= 3 then row[k - 3] else 0;
      var b := if up.Some? && k < |up.value| then up.value[k] else 0;
      var c := if up.Some? && 3 <= k < |up.value| + 3 then up.value[k - 3] else 0;
      row + [Recon(f, line[k], a, b, c)]
  }

  lemma {:induction false} ReconUndone(f: nat, v: byte, a: byte, b: byte, c: byte)
    ensures Recon(f, Wrap(v - Predict(f, a, b, c)), a, b, c) == v
  {
    hide Recon, Predict, Wrap;
    ReconIs(f, Wrap(v - Predict(f, a, b, c)), a, b, c);
    WrapUndone(v, Predict(f, a, b, c));
  }

  lemma {:induction false} ReconIs(f: nat, x: byte, a: byte, b: byte, c: byte)
    ensures Recon(f, x, a, b, c) == Wrap(x + Predict(f, a, b, c))
  {
    PaethSame(a, b, c);
    hide Paeth, PaethPredictor;
  }

  lemma {:induction false} WrapUndone(v: byte, p: byte)
    ensures Wrap(Wrap(v - p) + p) == v
  {
  }

  /** Rebuilding a filtered row gives the row back, whichever filter it was. */
  lemma {:induction false} UnfilterUndoes(f: nat, row: seq<byte>, up: Option<seq<byte>>)
    ensures Unfilter(f, Filtered(f, row, up), up) == row
  {
    hide Predict, Recon, Wrap;
    if row != [] {
      var k := |row| - 1;
      UnfilterUndoes(f, row[..k], up);
      assert Filtered(f, row, up)[..k] == Filtered(f, row[..k], up) by { FilteredPrefix(f, row, up, k); }
      ReconUndone(f, row[k], Left(row, k), Above(up, k), AboveLeft(up, k));
      assert row == row[..k] + [row[k]];
    }
  }

  lemma {:induction false} FilteredPrefix(f: nat, row: seq<byte>, up: Option<seq<byte>>, k: nat)
    requires k <= |row|
    ensures Filtered(f, row, up)[..k] == Filtered(f, row[..k], up)
  {
    hide Predict;
    assert forall i :: 0 <= i < k ==> Left(row[..k], i) == Left(row, i);
  }

  /** pw_filter: one scanline, and how much is left of it. */
  method Filter(row: seq<byte>, up: Option<seq<byte>>, f: nat, dst: array<byte>) returns (sum: nat)
    requires dst.Length == |row| && (up.Some? ==> |up.value| == |row|)
    modifies dst
    ensures dst[..] == Filtered(f, row, up) && sum == Cost(dst[..])
  {
    sum := 0;
    var i := 0;
    while i < |row|
      invariant 0 <= i <= |row|
      invariant forall k :: 0 <= k < i ==> dst[k] == Residual(f, row, up, k)
      invariant sum == Cost(dst[..i])
    {
      var v := FilterByte(row, up, f, i);
      ghost var before := dst[..i];
      dst[i] := v;
      assert dst[..i + 1][..i] == before;
      sum := sum + (if v >= 128 then 256 - v else v);
      i := i + 1;
    }
    assert dst[..i] == dst[..];
  }

  method FilterByte(row: seq<byte>, up: Option<seq<byte>>, f: nat, i: nat) returns (v: byte)
    requires i < |row| && (up.Some? ==> |up.value| == |row|)
    ensures v == Residual(f, row, up, i)
  {
    var a: byte := if i >= BPP then row[i - BPP] else 0;
    var b: byte := if up.Some? then up.value[i] else 0;
    var c: byte := if up.Some? && i >= BPP then up.value[i - BPP] else 0;
    match f
    case 1 => v := Wrap(row[i] - a);
    case 2 => v := Wrap(row[i] - b);
    case 3 => v := Wrap(row[i] - (a + b) / 2);
    case 4 => v := Wrap(row[i] - Paeth(a, b, c));
    case _ => v := Wrap(row[i]);
  }

  /** The first filter that leaves least. */
  ghost predicate Least(f: nat, row: seq<byte>, up: Option<seq<byte>>) {
    && f < 5
    && (forall g :: 0 <= g < 5 ==> Cost(Filtered(f, row, up)) <= Cost(Filtered(g, row, up)))
    && (forall g :: 0 <= g < f ==> Cost(Filtered(f, row, up)) < Cost(Filtered(g, row, up)))
  }

  method Copy(src: array<byte>, dst: array<byte>)
    requires src != dst && src.Length == dst.Length
    modifies dst
    ensures dst[..] == src[..]
  {
    var i := 0;
    while i < src.Length
      invariant 0 <= i <= src.Length && forall k :: 0 <= k < i ==> dst[k] == src[k]
    {
      dst[i] := src[i];
      i := i + 1;
    }
  }

  /** The five filters are tried on a scanline and the best is kept. */
  method Choose(row: seq<byte>, up: Option<seq<byte>>, trial: array<byte>, best: array<byte>) returns (bestf: nat)
    requires trial != best && trial.Length == best.Length == |row| && (up.Some? ==> |up.value| == |row|)
    modifies trial, best
    ensures Least(bestf, row, up) && best[..] == Filtered(bestf, row, up)
  {
    hide Cost, Filtered;
    var bestsum := 0;
    bestf := 0;
    var f := 0;
    while f < 5
      invariant 0 <= f <= 5 && (f == 0 || bestf < f)
      invariant f > 0 ==> best[..] == Filtered(bestf, row, up) && bestsum == Cost(Filtered(bestf, row, up))
      invariant forall g :: 0 <= g < f ==> bestsum <= Cost(Filtered(g, row, up))
      invariant forall g :: 0 <= g < bestf ==> bestsum < Cost(Filtered(g, row, up))
    {
      var s := Filter(row, up, f, trial);
      if f == 0 || s < bestsum {
        bestsum := s;
        bestf := f;
        Copy(trial, best);
      }
      f := f + 1;
    }
  }

  // ---- the picture ----

  /** One line of the filtered picture: the filter, and what it left. */
  ghost predicate LineOf(line: seq<byte>, row: seq<byte>, up: Option<seq<byte>>) {
    exists f: nat :: Least(f, row, up) && line == [Wrap(f)] + Filtered(f, row, up)
  }

  /** The rows reconstructed from the first `h` lines of `raw`, each `bw` bytes and a filter. */
  ghost function Rows(raw: seq<byte>, bw: nat, h: nat): (rows: seq<seq<byte>>)
    requires |raw| == (bw + 1) * h
    ensures |rows| == h && forall y :: 0 <= y < h ==> |rows[y]| == bw
    decreases h
  {
    if h == 0 then []
    else
      var k := (bw + 1) * (h - 1);
      LineFits(bw, h);
      var rows := Rows(raw[..k], bw, h - 1);
      rows + [Unfilter(raw[k], raw[k + 1..], if h == 1 then None else Some(rows[h - 2]))]
  }

  lemma {:induction false} LineFits(bw: nat, h: nat)
    requires h > 0
    ensures (bw + 1) * h == (bw + 1) * (h - 1) + bw + 1 && (bw + 1) * (h - 1) >= 0
  {
  }

  ghost function Flatten(rows: seq<seq<byte>>): seq<byte> {
    if rows == [] then [] else Flatten(rows[..|rows| - 1]) + rows[|rows| - 1]
  }

  /** Each line is the best filtering of its row, the one above it being the bitmap's own. */
  ghost predicate Filters(raw: seq<byte>, rgb: seq<byte>, bw: nat, h: nat)
    requires |raw| == (bw + 1) * h && |rgb| == bw * h
    decreases h
  {
    h > 0 ==>
      var k, m := (bw + 1) * (h - 1), bw * (h - 1);
      LineFits(bw, h);
      RowFits(bw, h);
      && Filters(raw[..k], rgb[..m], bw, h - 1)
      && LineOf(raw[k..], rgb[m..], if h == 1 then None else Some(rgb[m - bw..m]))
  }

  lemma {:induction false} RowFits(bw: nat, h: nat)
    requires h > 0
    ensures bw * h == bw * (h - 1) + bw && bw * (h - 1) >= 0 && (h > 1 ==> bw * (h - 1) >= bw)
  {
    if h > 1 { assert bw * (h - 1) == bw * (h - 2) + bw && bw * (h - 2) >= 0; }
  }

  /** The last line of a filtered picture, and the lines before it. */
  lemma {:induction false} LastLine(raw: seq<byte>, rgb: seq<byte>, bw: nat, h: nat, k: nat, m: nat, up: Option<seq<byte>>)
    returns (f: nat)
    requires h > 0 && |raw| == (bw + 1) * h && |rgb| == bw * h && Filters(raw, rgb, bw, h)
    requires k == (bw + 1) * (h - 1) && m == bw * (h - 1) && k + bw + 1 == |raw| && m + bw == |rgb| && (h > 1 ==> m >= bw)
    requires up == if h == 1 then None else Some(rgb[m - bw..m])
    ensures Filters(raw[..k], rgb[..m], bw, h - 1)
    ensures Least(f, rgb[m..], up) && raw[k..] == [Wrap(f)] + Filtered(f, rgb[m..], up)
  {
    hide Filtered, Least, Wrap;
    f :| Least(f, rgb[m..], up) && raw[k..] == [Wrap(f)] + Filtered(f, rgb[m..], up);
  }

  lemma {:induction false} RowsNext(raw: seq<byte>, bw: nat, h: nat, k: nat, row: seq<byte>)
    requires h > 0 && |raw| == (bw + 1) * h && k == (bw + 1) * (h - 1) && k + bw + 1 == |raw|
    requires var rows := Rows(raw[..k], bw, h - 1);
             row == Unfilter(raw[k], raw[k + 1..], if h == 1 then None else Some(rows[h - 2]))
    ensures Rows(raw, bw, h) == Rows(raw[..k], bw, h - 1) + [row]
    ensures Flatten(Rows(raw, bw, h)) == Flatten(Rows(raw[..k], bw, h - 1)) + row
  {
    hide Unfilter;
    var rows := Rows(raw[..k], bw, h - 1);
    assert (rows + [row])[..h - 1] == rows;
  }

  /** Reconstructing the filtered picture gives the bitmap back. */
  lemma {:induction false} PictureBack(raw: seq<byte>, rgb: seq<byte>, bw: nat, h: nat)
    requires |raw| == (bw + 1) * h && |rgb| == bw * h && Filters(raw, rgb, bw, h)
    ensures Flatten(Rows(raw, bw, h)) == rgb
    ensures h > 0 ==> bw * h >= bw && Rows(raw, bw, h)[h - 1] == rgb[bw * h - bw..]
    decreases h
  {
    hide Filtered, Unfilter, Least, Filters, Wrap;
    if h == 0 {
      assert Rows(raw, bw, h) == [];
    } else {
      hide Rows, Flatten;
      var k, m := (bw + 1) * (h - 1), bw * (h - 1);
      LineFits(bw, h);
      RowFits(bw, h);
      var row, up := rgb[m..], if h == 1 then None else Some(rgb[m - bw..m]);
      var f := LastLine(raw, rgb, bw, h, k, m, up);
      PictureBack(raw[..k], rgb[..m], bw, h - 1);
      LineBack(raw, k, f, row, up);
      assert h > 1 ==> rgb[..m][m - bw..] == rgb[m - bw..m];
      RowsNext(raw, bw, h, k, row);
      assert rgb == rgb[..m] + row;
    }
  }

  lemma {:induction false} LeastBelow(f: nat, row: seq<byte>, up: Option<seq<byte>>)
    requires Least(f, row, up)
    ensures f < 5
  {
  }

  lemma {:induction false} LineBack(raw: seq<byte>, k: nat, f: nat, row: seq<byte>, up: Option<seq<byte>>)
    requires k < |raw| && Least(f, row, up) && raw[k..] == [Wrap(f)] + Filtered(f, row, up)
    ensures Unfilter(raw[k], raw[k + 1..], up) == row
  {
    hide Filtered, Unfilter, Least;
    assert f < 5 by { LeastBelow(f, row, up); }
    assert raw[k] == raw[k..][0] && raw[k + 1..] == raw[k..][1..];
    UnfilterUndoes(f, row, up);
  }

  /** A line is put in the buffer: the filter, then the residuals. */
  method PutLine(raw: array<byte>, at0: nat, bestf: nat, best: array<byte>) returns (at: nat)
    requires raw != best && at0 + 1 + best.Length <= raw.Length
    modifies raw
    ensures at == at0 + 1 + best.Length && raw[..at] == old(raw[..at0]) + ([Wrap(bestf)] + old(best[..]))
  {
    ghost var done := raw[..at0];
    raw[at0] := Wrap(bestf);
    at := at0 + 1;
    var i := 0;
    while i < best.Length
      invariant 0 <= i <= best.Length && at == at0 + 1 + i
      invariant raw[..at] == done + ([Wrap(bestf)] + old(best[..i]))
    {
      assert old(best[..i + 1]) == old(best[..i]) + [best[i]];
      raw[at] := best[i];
      assert raw[..at + 1] == raw[..at] + [best[i]];
      at := at + 1;
      i := i + 1;
    }
    assert old(best[..i]) == old(best[..]);
  }

  lemma {:induction false} MoreLines(raw: seq<byte>, line: seq<byte>, rgb: seq<byte>, row: seq<byte>, bw: nat, y: nat)
    requires |raw| == (bw + 1) * y && |rgb| == bw * y && Filters(raw, rgb, bw, y) && |line| == bw + 1 && |row| == bw
    requires LineOf(line, row, if y == 0 then None else Some(rgb[|rgb| - bw..]))
    requires y > 0 ==> |rgb| >= bw
    ensures |raw + line| == (bw + 1) * (y + 1) && |rgb + row| == bw * (y + 1) && Filters(raw + line, rgb + row, bw, y + 1)
  {
    hide LineOf;
    LineFits(bw, y + 1);
    RowFits(bw, y + 1);
    assert (raw + line)[..(bw + 1) * y] == raw && (raw + line)[(bw + 1) * y..] == line;
    assert (rgb + row)[..bw * y] == rgb && (rgb + row)[bw * y..] == row;
    if y > 0 { assert (rgb + row)[bw * y - bw..bw * y] == rgb[|rgb| - bw..]; }
  }

  /** Every scanline of the bitmap, filtered. */
  method FilterAll(rgb: seq<byte>, bw: nat, h: nat) returns (raw: array<byte>)
    requires |rgb| == bw * h
    ensures fresh(raw) && raw.Length == (bw + 1) * h && Filters(raw[..], rgb, bw, h)
  {
    hide Filters;
    NoLines(bw, h);
    var rawn: nat := (bw + 1) * h;
    raw := new byte[rawn](_ => 0);
    var trial := new byte[bw](_ => 0);
    var best := new byte[bw](_ => 0);
    var up := None;
    var at: nat := 0;
    var y: nat := 0;
    assert raw[..0] == [] && rgb[..0] == [];
    while y < h
      invariant y <= h && at == (bw + 1) * y <= raw.Length && 0 <= bw * y <= |rgb|
      invariant y > 0 ==> bw * y >= bw
      invariant up == if y == 0 then None else Some(rgb[bw * y - bw..bw * y])
      invariant Filters(raw[..at], rgb[..bw * y], bw, y)
    {
      up, at := FilterOne(rgb, bw, h, y, up, trial, best, raw, at);
      y := y + 1;
    }
    assert raw[..at] == raw[..] && rgb[..bw * y] == rgb;
  }

  lemma {:induction false} NoLines(bw: nat, h: nat)
    ensures (bw + 1) * 0 == 0 && bw * 0 == 0 && (bw + 1) * h >= 0 && bw * h >= 0 && Filters([], [], bw, 0)
  {
  }

  lemma {:induction false} LineInside(bw: nat, h: nat, y: nat)
    requires y < h
    ensures (bw + 1) * y + bw + 1 == (bw + 1) * (y + 1) <= (bw + 1) * h
    ensures bw * y + bw == bw * (y + 1) <= bw * h
    decreases h - y
  {
    if y + 1 < h {
      LineInside(bw, h, y + 1);
    }
  }

  method FilterOne(rgb: seq<byte>, bw: nat, h: nat, y: nat, up: Option<seq<byte>>, trial: array<byte>, best: array<byte>,
                   raw: array<byte>, at: nat)
    returns (up': Option<seq<byte>>, at': nat)
    requires |rgb| == bw * h && y < h && raw.Length == (bw + 1) * h && at == (bw + 1) * y <= raw.Length && bw * y <= |rgb|
    requires trial != best && raw != best && raw != trial && trial.Length == best.Length == bw
    requires y > 0 ==> bw * y >= bw
    requires up == if y == 0 then None else Some(rgb[bw * y - bw..bw * y])
    requires Filters(raw[..at], rgb[..bw * y], bw, y)
    modifies trial, best, raw
    ensures at' == (bw + 1) * (y + 1) <= raw.Length && bw <= bw * (y + 1) <= |rgb|
    ensures up' == Some(rgb[bw * (y + 1) - bw..bw * (y + 1)])
    ensures Filters(raw[..at'], rgb[..bw * (y + 1)], bw, y + 1)
  {
    hide Filters, Least, Filtered;
    LineInside(bw, h, y);
    var row := rgb[bw * y..bw * y + bw];
    ghost var done := raw[..at];
    var bestf := Choose(row, up, trial, best);
    at' := PutLine(raw, at, bestf, best);
    ghost var line := [Wrap(bestf)] + best[..];
    assert LineOf(line, row, up);
    assert y > 0 ==> rgb[..bw * y][bw * y - bw..] == rgb[bw * y - bw..bw * y];
    MoreLines(done, line, rgb[..bw * y], row, bw, y);
    assert rgb[..bw * y] + row == rgb[..bw * (y + 1)];
    up' := Some(row);
  }

  // ---- the file ----

  /** pw_be32: four bytes, the most significant first. */
  function Be32(v: nat): (s: seq<byte>)
    ensures |s| == 4
  {
    [v / 0x100_0000 % 256, v / 0x1_0000 % 256, v / 256 % 256, v % 256]
  }

  function Num(s: seq<byte>): nat
    requires |s| == 4
  {
    var a: nat, b: nat, c: nat, d: nat := s[0], s[1], s[2], s[3];
    0x100_0000 * a + 0x1_0000 * b + 256 * c + d
  }

  lemma {:induction false} NumBe32(v: nat)
    requires v < 0x1_0000_0000
    ensures Num(Be32(v)) == v
  {
    var a := v / 256;
    var b := a / 256;
    assert v / 0x1_0000 == b && v / 0x100_0000 == b / 256;
    assert v == 256 * a + v % 256 && a == 256 * b + a % 256 && b == 256 * (b / 256) + b % 256;
  }

  const SIGNATURE: seq<byte> := [137, 80, 78, 71, 13, 10, 26, 10]
  const IHDR: seq<byte> := [73, 72, 68, 82]
  const IDAT: seq<byte> := [73, 68, 65, 84]
  const IEND: seq<byte> := [73, 69, 78, 68]

  function Ihdr(w: nat, h: nat): (s: seq<byte>)
    ensures |s| == 13
  {
    Be32(w) + Be32(h) + [8, 2, 0, 0, 0]
  }

  function Chunk(tag: seq<byte>, d: seq<byte>): seq<byte> {
    Be32(|d|) + (tag + d + Be32(Crc(tag + d)))
  }

  /** pw_chunk: the CRC is over the tag and the data, not the length. */
  method PutChunk(out0: seq<byte>, tag: seq<byte>, d: seq<byte>) returns (out: seq<byte>)
    ensures out == out0 + Chunk(tag, d)
  {
    hide Crc, Be32;
    var b := tag + d;
    var crc := Crc32(b);
    out := out0 + Be32(|d|) + b + Be32(crc);
  }

  ghost function FileOf(w: nat, h: nat, z: seq<byte>): seq<byte> {
    SIGNATURE + (Chunk(IHDR, Ihdr(w, h)) + (Chunk(IDAT, z) + Chunk(IEND, [])))
  }

  /** A file whose IDAT data is a zlib stream of the bitmap's filtered scanlines. */
  ghost predicate PngOf(file: seq<byte>, rgb: seq<byte>, w: nat, h: nat) {
    exists z: seq<byte>, raw: seq<byte> :: Carries(file, z, raw, rgb, w, h)
  }

  ghost predicate Carries(file: seq<byte>, z: seq<byte>, raw: seq<byte>, rgb: seq<byte>, w: nat, h: nat) {
    file == FileOf(w, h, z) && ZlibOf(z, raw) && |z| < 0x1_0000_0000 && Scanlines(raw, rgb, 3 * w, h)
  }

  /** `raw` is the filtered scanlines of the bitmap. */
  ghost predicate Scanlines(raw: seq<byte>, rgb: seq<byte>, bw: nat, h: nat) {
    |raw| == (bw + 1) * h && |rgb| == bw * h && Filters(raw, rgb, bw, h)
  }

  /** The bitmap reconstructed from them. */
  ghost function Rebuilt(raw: seq<byte>, bw: nat, h: nat): Option<seq<byte>> {
    if |raw| == (bw + 1) * h then Some(Flatten(Rows(raw, bw, h))) else None
  }

  lemma {:induction false} BoundShort(n: nat)
    requires n < 0x8000_0000
    ensures Bound(n) + 48 < 8 * 0x1_0000_0000
  {
  }

  /** pw_write. */
  method Write(rgb: seq<byte>, w: nat, h: nat, out0: seq<byte>) returns (out: seq<byte>)
    requires |rgb| == 3 * w * h && w < 0x8000_0000 && h < 0x8000_0000 && (3 * w + 1) * h < 0x8000_0000
    ensures out0 <= out && PngOf(out[|out0|..], rgb, w, h)
  {
    hide Filters, Chunk, ZlibOf, Bound;
    out := out0 + SIGNATURE;
    out := PutChunk(out, IHDR, Ihdr(w, h));
    var raw := FilterAll(rgb, 3 * w, h);
    var z := DefZlib(raw[..], []);
    assert z[0..] == z;
    BoundShort(raw.Length);
    out := PutChunk(out, IDAT, z);
    out := PutChunk(out, IEND, []);
    assert out[|out0|..] == FileOf(w, h, z);
    assert Carries(out[|out0|..], z, raw[..], rgb, w, h);
  }

  // ---- the picture read back from the file ----

  /** A chunk as a reader takes it: its length, its type, its data, and a CRC that has to be right. */
  ghost function ChunkAt(file: seq<byte>, p: nat): Option<(seq<byte>, seq<byte>, nat)> {
    if p + 12 > |file| then None
    else
      var n := Num(file[p..p + 4]);
      if p + 12 + n > |file| || Num(file[p + 8 + n..p + 12 + n]) != Crc(file[p + 4..p + 8 + n]) then None
      else Some((file[p + 4..p + 8], file[p + 8..p + 8 + n], p + 12 + n))
  }

  /** The picture in a file of three chunks: the signature, a header for eight-bit RGB, the rows, and the end. */
  ghost function Picture(file: seq<byte>, max: nat): Option<(nat, nat, seq<byte>)> {
    if |file| < 8 || file[..8] != [0x89, 0x50, 0x4e, 0x47, 0x0d, 0x0a, 0x1a, 0x0a] then None
    else
      match ChunkAt(file, 8)
      case None => None
      case Some((t1, head, p1)) =>
        match ChunkAt(file, p1)
        case None => None
        case Some((t2, z, p2)) =>
          match ChunkAt(file, p2)
          case None => None
          case Some((t3, rest, p3)) =>
            if t1 != [0x49, 0x48, 0x44, 0x52] || t2 != [0x49, 0x44, 0x41, 0x54] || t3 != [0x49, 0x45, 0x4e, 0x44] then None
            else if |head| != 13 || head[8..] != [8, 2, 0, 0, 0] || rest != [] || p3 != |file| then None
            else
              match InflateZlib(z, max)
              case None => None
              case Some((raw, _)) =>
                match Rebuilt(raw, 3 * Num(head[..4]), Num(head[4..8]))
                case None => None
                case Some(rgb) => Some((Num(head[..4]), Num(head[4..8]), rgb))
  }

  lemma {:induction false} ChunkRead(file: seq<byte>, a: seq<byte>, tag: seq<byte>, d: seq<byte>, b: seq<byte>)
    requires file == a + (Chunk(tag, d) + b) && |tag| == 4 && |d| < 0x1_0000_0000
    ensures ChunkAt(file, |a|) == Some((tag, d, |a| + |Chunk(tag, d)|))
  {
    hide Crc, Be32, Num;
    var c := Be32(Crc(tag + d));
    Be32Sizes(|d|, Crc(tag + d), 0, 0);
    CrcBelow(tag + d);
    NumBe32(|d|);
    NumBe32(Crc(tag + d));
    assert file == a + (Be32(|d|) + (tag + d + c + b));
    Cut(file, a, Be32(|d|), tag + d + c + b);
    assert file == (a + Be32(|d|)) + ((tag + d) + (c + b));
    Cut(file, a + Be32(|d|), tag + d, c + b);
    Cut(file, a + Be32(|d|) + (tag + d), c, b);
    assert file == (a + Be32(|d|)) + (tag + (d + (c + b)));
    Cut(file, a + Be32(|d|), tag, d + (c + b));
    assert file == (a + Be32(|d|) + tag) + (d + (c + b));
    Cut(file, a + Be32(|d|) + tag, d, c + b);
    assert |Chunk(tag, d)| == 12 + |d|;
  }

  lemma {:induction false} CrcBelow(s: seq<byte>)
    ensures Crc(s) < 0x1_0000_0000
  {
    hide Crc;
    FourBytes();
    CrcDivides(s, 0);
  }

  lemma {:induction false} Cut(s: seq<byte>, a: seq<byte>, b: seq<byte>, c: seq<byte>)
    requires s == a + (b + c)
    ensures |a| + |b| <= |s| && s[|a|..|a| + |b|] == b
  {
  }

  lemma {:induction false} Be32Sizes(u: nat, v: nat, w: nat, x: nat)
    ensures |Be32(u)| == |Be32(v)| == |Be32(w)| == |Be32(x)| == 4
  {
  }

  lemma {:induction false} ChunksRead(file: seq<byte>, w: nat, h: nat, z: seq<byte>)
    requires file == FileOf(w, h, z) && |z| < 0x1_0000_0000
    ensures |file| >= 8 && file[..8] == SIGNATURE
    ensures ChunkAt(file, 8) == Some((IHDR, Ihdr(w, h), 33))
    ensures ChunkAt(file, 33) == Some((IDAT, z, 45 + |z|))
    ensures ChunkAt(file, 45 + |z|) == Some((IEND, [], |file|))
  {
    hide Chunk, ChunkAt, Ihdr;
    var a, b, c := Chunk(IHDR, Ihdr(w, h)), Chunk(IDAT, z), Chunk(IEND, []);
    ChunkSize(IHDR, Ihdr(w, h));
    ChunkSize(IDAT, z);
    ChunkSize(IEND, []);
    ChunkRead(file, SIGNATURE, IHDR, Ihdr(w, h), b + c);
    assert file == (SIGNATURE + a) + (b + c);
    ChunkRead(file, SIGNATURE + a, IDAT, z, c);
    assert file == (SIGNATURE + a + b) + (c + []);
    ChunkRead(file, SIGNATURE + a + b, IEND, [], []);
  }

  lemma {:induction false} ChunkSize(tag: seq<byte>, d: seq<byte>)
    ensures |Chunk(tag, d)| == 8 + |tag| + |d|
  {
  }

  lemma {:induction false} HeadRead(w: nat, h: nat)
    requires w < 0x1_0000_0000 && h < 0x1_0000_0000
    ensures var s := Ihdr(w, h);
            |s| == 13 && s[8..] == [8, 2, 0, 0, 0] && Num(s[..4]) == w && Num(s[4..8]) == h
  {
    hide Be32, Num;
    Be32Sizes(w, h, 0, 0);
    NumBe32(w);
    NumBe32(h);
    assert Ihdr(w, h)[..4] == Be32(w) && Ihdr(w, h)[4..8] == Be32(h);
  }

  /** Every bitmap is read back from the file written for it, pixel for pixel. */
  lemma {:induction false} PictureRead(file: seq<byte>, rgb: seq<byte>, w: nat, h: nat, max: nat)
    requires w < 0x8000_0000 && h < 0x8000_0000 && (3 * w + 1) * h <= max
    requires PngOf(file, rgb, w, h)
    ensures Picture(file, max) == Some((w, h, rgb))
  {
    hide Be32, Num, FileOf, ZlibOf, InflateZlib, Scanlines, Rebuilt, ChunkAt, Ihdr;
    var z: seq<byte>, raw: seq<byte> :| Carries(file, z, raw, rgb, w, h);
    RebuiltIs(raw, rgb, 3 * w, h);
    ChunksRead(file, w, h, z);
    HeadRead(w, h);
    ZlibUndoes(z, raw, [], max);
    assert z + [] == z;
  }

  lemma {:induction false} RebuiltIs(raw: seq<byte>, rgb: seq<byte>, bw: nat, h: nat)
    requires Scanlines(raw, rgb, bw, h)
    ensures |raw| == (bw + 1) * h && Rebuilt(raw, bw, h) == Some(rgb)
  {
    PictureBack(raw, rgb, bw, h);
  }
}
