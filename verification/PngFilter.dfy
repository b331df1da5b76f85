/** The scanline filters of section 6 of RFC 2083, which are undone byte by byte from the bytes to
    the left and above. */
module PngFilter {
  import opened Bits
  import opened Wrappers

  function Abs(v: int): nat
  {
    if v < 0 then -v else v
  }

  /** The neighbour that is closest to a + b - c; of equally close ones the first in the order a, b, c. */
  function Paeth(a: int, b: int, c: int): (r: int)
    ensures r == a || r == b || r == c
    ensures var p := a + b - c;
            && Abs(p - r) <= Abs(p - a) && Abs(p - r) <= Abs(p - b) && Abs(p - r) <= Abs(p - c)
            && (Abs(p - a) == Abs(p - r) ==> r == a)
            && (Abs(p - b) == Abs(p - r) ==> r == a || r == b)
  {
    var p := a + b - c;
    var pa, pb, pc := Abs(p - a), Abs(p - b), Abs(p - c);
    if pa <= pb && pa <= pc then a else if pb <= pc then b else c
  }

  /** What a filter predicts from the byte to the left, the one above, and the one above that to the left. */
  function Predict(filter: nat, a: byte, b: byte, c: byte): (v: byte)
  {
    match filter
    case 1 => a
    case 2 => b
    case 3 => (a + b) / 2
    case 4 => Paeth(a, b, c)
    case _ => 0
  }

  /** The byte one pixel to the left; left of the row there are zeros. */
  function Left(row: seq<byte>, i: nat, bpp: nat): byte
    requires i < bpp + |row|
  {
    if i < bpp then 0 else row[i - bpp]
  }

  function Expected(filter: nat, bpp: nat, prior: seq<byte>, row: seq<byte>, i: nat): byte
    requires i < |prior| && i < bpp + |row|
  {
    Predict(filter, Left(row, i, bpp), prior[i], Left(prior, i, bpp))
  }

  /** A row with the predictions taken away. */
  function FilterRow(filter: nat, bpp: nat, prior: seq<byte>, row: seq<byte>): (bytes: seq<byte>)
    requires |prior| == |row| && bpp >= 1
    ensures |bytes| == |row|
  {
    seq(|row|, i requires 0 <= i < |row| => (row[i] - Expected(filter, bpp, prior, row, i)) % 256)
  }

  /** The first `n` bytes of a row, rebuilt by adding the predictions from what is rebuilt already. */
  function UnfilterTo(filter: nat, bpp: nat, prior: seq<byte>, bytes: seq<byte>, n: nat): (row: seq<byte>)
    requires n <= |prior| == |bytes| && bpp >= 1
    ensures |row| == n
  {
    if n == 0 then []
    else
      var done := UnfilterTo(filter, bpp, prior, bytes, n - 1);
      done + [(bytes[n - 1] + Expected(filter, bpp, prior, done, n - 1)) % 256]
  }

  function UnfilterRow(filter: nat, bpp: nat, prior: seq<byte>, bytes: seq<byte>): (row: seq<byte>)
    requires |prior| == |bytes| && bpp >= 1
    ensures |row| == |bytes|
  {
    UnfilterTo(filter, bpp, prior, bytes, |bytes|)
  }

  lemma ByteOf(n: int, q: int, v: byte)
    requires n == 256 * q + v
    ensures n % 256 == v
  {
    QuotientUnique(256, n / 256, n % 256, q, v);
  }

  lemma SubThenAdd(v: byte, e: int)
    ensures ((v - e) % 256 + e) % 256 == v
    ensures ((v + e) % 256 - e) % 256 == v
  {
    ByteOf((v - e) % 256 + e, -((v - e) / 256), v);
    ByteOf((v + e) % 256 - e, -((v + e) / 256), v);
  }

  lemma {:induction false} UnfilterToUndoes(filter: nat, bpp: nat, prior: seq<byte>, row: seq<byte>, n: nat)
    requires n <= |prior| == |row| && bpp >= 1
    ensures UnfilterTo(filter, bpp, prior, FilterRow(filter, bpp, prior, row), n) == row[..n]
  {
    hide Predict, Expected;
    if n > 0 {
      UnfilterToUndoes(filter, bpp, prior, row, n - 1);
      ExpectedFromPrefix(filter, bpp, prior, row, n - 1);
      SubThenAdd(row[n - 1], Expected(filter, bpp, prior, row, n - 1));
      assert row[..n] == row[..n - 1] + [row[n - 1]];
    }
  }

  lemma ExpectedFromPrefix(filter: nat, bpp: nat, prior: seq<byte>, row: seq<byte>, i: nat)
    requires i < |prior| == |row| && bpp >= 1
    ensures Expected(filter, bpp, prior, row[..i], i) == Expected(filter, bpp, prior, row, i)
  {
  }

  /** Unfiltering undoes filtering, for every filter and whatever the row above is. */
  lemma UnfilterUndoesFilter(filter: nat, bpp: nat, prior: seq<byte>, row: seq<byte>)
    requires |prior| == |row| && bpp >= 1
    ensures UnfilterRow(filter, bpp, prior, FilterRow(filter, bpp, prior, row)) == row
  {
    UnfilterToUndoes(filter, bpp, prior, row, |row|);
    assert row[..|row|] == row;
  }

  lemma {:induction false} UnfilterToPrefix(filter: nat, bpp: nat, prior: seq<byte>, bytes: seq<byte>, m: nat, n: nat)
    requires m <= n <= |prior| == |bytes| && bpp >= 1
    ensures UnfilterTo(filter, bpp, prior, bytes, m) == UnfilterTo(filter, bpp, prior, bytes, n)[..m]
    decreases n
  {
    hide Expected;
    if m < n { UnfilterToPrefix(filter, bpp, prior, bytes, m, n - 1); }
  }

  /** Byte `i` of an unfiltered row, from the row itself. */
  lemma UnfilteredAt(filter: nat, bpp: nat, prior: seq<byte>, bytes: seq<byte>, i: nat)
    requires i < |prior| == |bytes| && bpp >= 1
    ensures var row := UnfilterRow(filter, bpp, prior, bytes);
            row[i] == (bytes[i] + Expected(filter, bpp, prior, row, i)) % 256
  {
    hide Predict;
    var row := UnfilterRow(filter, bpp, prior, bytes);
    UnfilterToPrefix(filter, bpp, prior, bytes, i + 1, |bytes|);
    UnfilterToPrefix(filter, bpp, prior, bytes, i, |bytes|);
    assert row[..i + 1][i] == row[i];
    ExpectedFromPrefix(filter, bpp, prior, row, i);
  }

  /** Filtering undoes unfiltering: no two byte rows rebuild to the same row. */
  lemma FilterUndoesUnfilter(filter: nat, bpp: nat, prior: seq<byte>, bytes: seq<byte>)
    requires |prior| == |bytes| && bpp >= 1
    ensures FilterRow(filter, bpp, prior, UnfilterRow(filter, bpp, prior, bytes)) == bytes
  {
    hide Predict, Expected, UnfilterRow;
    var row := UnfilterRow(filter, bpp, prior, bytes);
    forall i | 0 <= i < |bytes|
      ensures FilterRow(filter, bpp, prior, row)[i] == bytes[i]
    {
      UnfilteredAt(filter, bpp, prior, bytes, i);
      SubThenAdd(bytes[i], Expected(filter, bpp, prior, row, i));
    }
  }

  // ---------- the filters for the first row ----------

  /** The code's filters 5 and 6 stand for the average and Paeth filters in the first row. */
  const AVG_FIRST: nat := 5
  const PAETH_FIRST: nat := 6

  const FIRST_ROW_FILTER: seq<nat> := [0, 1, 0, AVG_FIRST, PAETH_FIRST]

  /** What the filters of the code add, the synthetic ones included. */
  function Added(filter: nat, a: byte, b: byte, c: byte): byte
  {
    match filter
    case 5 => a / 2
    case 6 => Paeth(a, 0, 0)
    case _ => Predict(filter, a, b, c)
  }

  /** In the first row the synthetic filters are the general ones over a row of zeros. */
  lemma FirstRowFilters(filter: nat, a: byte, b: byte, c: byte)
    requires filter <= 4
    ensures Added(FIRST_ROW_FILTER[filter], a, b, c) == Predict(filter, a, 0, 0)
    ensures Added(filter, a, b, c) == Predict(filter, a, b, c)
  {
  }

  // ---------- images ----------

  function Zeros(n: nat): (row: seq<byte>)
    ensures |row| == n
  {
    seq(n, _ => 0)
  }

  /** The data has `y` rows of `n` bytes and their filter types. */
  predicate Enough(raw: seq<byte>, n: nat, y: nat)
  {
    |raw| >= (n + 1) * y
  }

  /** `y` rows of `n` bytes, each led by its filter type; `None` for an unknown filter type. */
  function Rows(bpp: nat, n: nat, y: nat, raw: seq<byte>): (rows: Option<seq<seq<byte>>>)
    requires bpp >= 1 && Enough(raw, n, y)
    ensures rows.Some? ==> |rows.value| == y && forall j :: 0 <= j < y ==> |rows.value[j]| == n
  {
    if y == 0 then Some([])
    else
      RowInside(n, y, |raw|);
      var at := (n + 1) * (y - 1);
      match Rows(bpp, n, y - 1, raw)
      case None => None
      case Some(above) =>
        if raw[at] > 4 then None
        else Some(above + [UnfilterRow(raw[at], bpp, Above(above, n), raw[at + 1..at + 1 + n])])
  }

  /** The row above the next one; above the first row there are zeros. */
  function Above(rows: seq<seq<byte>>, n: nat): (row: seq<byte>)
    requires forall j :: 0 <= j < |rows| ==> |rows[j]| == n
    ensures |row| == n
  {
    if rows == [] then Zeros(n) else rows[|rows| - 1]
  }

  lemma RowInside(n: nat, y: nat, len: nat)
    requires y > 0 && (n + 1) * y <= len
    ensures (n + 1) * (y - 1) + n + 1 == (n + 1) * y <= len
  {
    Distribute(n + 1, y, 1);
  }

  predicate BadFilter(raw: seq<byte>, n: nat, j: nat)
  {
    (n + 1) * j < |raw| && raw[(n + 1) * j] > 4
  }

  /** Only an unknown filter type is refused. */
  lemma {:induction false} RowsRefused(bpp: nat, n: nat, y: nat, raw: seq<byte>)
    requires bpp >= 1 && Enough(raw, n, y)
    ensures Rows(bpp, n, y, raw).None? <==> exists j: nat :: j < y && BadFilter(raw, n, j)
    decreases y
  {
    hide UnfilterRow, Above, BadFilter;
    if y > 0 {
      RowInside(n, y, |raw|);
      RowsRefused(bpp, n, y - 1, raw);
      LastFilter(raw, n, y - 1);
      if Rows(bpp, n, y - 1, raw).Some? {
        assert Rows(bpp, n, y, raw).None? <==> BadFilter(raw, n, y - 1);
      }
    }
  }

  lemma LastFilter(raw: seq<byte>, n: nat, j: nat)
    requires (n + 1) * j < |raw|
    ensures BadFilter(raw, n, j) <==> raw[(n + 1) * j] > 4
  {
  }

  /** The filtered form of an image, each row with the filter chosen for it. */
  function Filtered(bpp: nat, n: nat, filters: seq<nat>, rows: seq<seq<byte>>): (raw: seq<byte>)
    requires bpp >= 1 && |filters| == |rows|
    requires forall j :: 0 <= j < |rows| ==> |rows[j]| == n && filters[j] <= 4
    ensures |raw| == (n + 1) * |rows|
  {
    var y := |rows|;
    if y == 0 then []
    else
      RowInside(n, y, (n + 1) * y);
      Filtered(bpp, n, filters[..y - 1], rows[..y - 1])
      + [filters[y - 1]] + FilterRow(filters[y - 1], bpp, Above(rows[..y - 1], n), rows[y - 1])
  }

  /** Whatever filters an encoder picks, the rows come back. */
  lemma {:induction false} RowsOfFiltered(bpp: nat, n: nat, filters: seq<nat>, rows: seq<seq<byte>>, raw: seq<byte>)
    requires bpp >= 1 && |filters| == |rows|
    requires forall j :: 0 <= j < |rows| ==> |rows[j]| == n && filters[j] <= 4
    requires Filtered(bpp, n, filters, rows) <= raw
    ensures Rows(bpp, n, |rows|, raw) == Some(rows)
    decreases |rows|
  {
    hide FilterRow, UnfilterRow, Above, Filtered;
    var y := |rows|;
    if y > 0 {
      FilteredParts(bpp, n, filters, rows, raw);
      RowsOfFiltered(bpp, n, filters[..y - 1], rows[..y - 1], raw);
      UnfilterUndoesFilter(filters[y - 1], bpp, Above(rows[..y - 1], n), rows[y - 1]);
      assert rows == rows[..y - 1] + [rows[y - 1]];
    }
  }

  /** The filtered rows before the last one, its filter type, and its bytes. */
  lemma FilteredParts(bpp: nat, n: nat, filters: seq<nat>, rows: seq<seq<byte>>, raw: seq<byte>)
    requires bpp >= 1 && |filters| == |rows| > 0
    requires forall j :: 0 <= j < |rows| ==> |rows[j]| == n && filters[j] <= 4
    requires Filtered(bpp, n, filters, rows) <= raw
    ensures var y := |rows|;
            var at := (n + 1) * (y - 1);
            && Filtered(bpp, n, filters[..y - 1], rows[..y - 1]) <= raw && at + 1 + n == (n + 1) * y <= |raw|
            && raw[at] == filters[y - 1]
            && raw[at + 1..at + 1 + n] == FilterRow(filters[y - 1], bpp, Above(rows[..y - 1], n), rows[y - 1])
  {
    hide FilterRow, Above;
    var y := |rows|;
    RowInside(n, y, (n + 1) * y);
    var before := Filtered(bpp, n, filters[..y - 1], rows[..y - 1]);
    var last := FilterRow(filters[y - 1], bpp, Above(rows[..y - 1], n), rows[y - 1]);
    ThreeParts(before, filters[y - 1], last, raw);
  }

  lemma ThreeParts(before: seq<byte>, filter: byte, last: seq<byte>, raw: seq<byte>)
    requires before + [filter] + last <= raw
    ensures before <= raw && raw[|before|] == filter && raw[|before| + 1..|before| + 1 + |last|] == last
  {
    var all := before + [filter] + last;
    assert raw[..|all|] == all;
    assert raw[..|before|] == all[..|before|] == before;
    assert raw[|before|] == all[|before|];
    assert raw[|before| + 1..|all|] == all[|before| + 1..];
  }
}
