/**
 * The older spreadsheet reader (util/util.go): rows of the sheet's `values`
 * matrix become locations with their cells copied verbatim, and a slug lookup
 * over a given list.
 */
module Util {
  import opened GoStrings
  import opened Sequences

  /** One row of the sheet's `values` matrix. */
  type Row = seq<string>

  datatype Location = Location(
    name: string,
    slug: string,
    url: string,
    description: string,
    lat: string,
    lng: string,
    standard: string,
    badge: seq<string>,
    tag: seq<string>)

  /** Go's zero value `Location{}`. */
  const ZeroLocation: Location := Location("", "", "", "", "", "", "", [], [])

  /** The location a row of at least nine cells becomes. */
  function RowLocation(row: Row): Location
    requires |row| >= 9
  {
    Location(row[0], row[1], row[2], row[3], row[4], row[5], row[6],
             Split(row[7], ','), Split(row[8], ','))
  }

  /** The rows with at least nine cells, converted, in order. */
  function ConvertRows(rows: seq<Row>): seq<Location>
    decreases |rows|
  {
    if rows == [] then []
    else
      var last := rows[|rows| - 1];
      ConvertRows(rows[..|rows| - 1]) + (if |last| < 9 then [] else [RowLocation(last)])
  }

  /** GetLocations after the request: no URL or key gives no locations, a
      status other than 200 gives no locations, otherwise the converted rows. */
  method GetLocations(url: string, key: string, status: int, rows: seq<Row>) returns (locations: seq<Location>)
    ensures url == "" || key == "" ==> locations == []
    ensures url != "" && key != "" && status != 200 ==> locations == []
    ensures url != "" && key != "" && status == 200 ==> locations == ConvertRows(rows)
  {
    locations := [];
    if url == "" || key == "" {
      return locations;
    }
    if status != 200 {
      return locations;
    }
    var i := 0;
    while i < |rows|
      invariant 0 <= i <= |rows|
      invariant locations == ConvertRows(rows[..i])
    {
      assert rows[..i + 1][..i] == rows[..i];
      var location := rows[i];
      i := i + 1;
      if |location| < 9 {
        continue;
      }
      locations := locations + [Location(location[0], location[1], location[2], location[3],
                                         location[4], location[5], location[6],
                                         Split(location[7], ','), Split(location[8], ','))];
    }
    assert rows[..i] == rows;
  }

  /** A converted row keeps cells 0-6 verbatim, and its badge and tag lists are
      non-empty and join back to cells 7 and 8. */
  lemma RowLocationFields(row: Row)
    requires |row| >= 9
    ensures var l := RowLocation(row);
      && l.name == row[0] && l.slug == row[1] && l.url == row[2] && l.description == row[3]
      && l.lat == row[4] && l.lng == row[5] && l.standard == row[6]
      && |l.badge| >= 1 && Join(l.badge, ',') == row[7]
      && (forall k :: 0 <= k < |l.badge| ==> ',' !in l.badge[k])
      && |l.tag| >= 1 && Join(l.tag, ',') == row[8]
      && (forall k :: 0 <= k < |l.tag| ==> ',' !in l.tag[k])
  {
    JoinSplit(row[7], ',');
    JoinSplit(row[8], ',');
    SplitPiecesLackSeparator(row[7], ',');
    SplitPiecesLackSeparator(row[8], ',');
  }

  /** The conversion keeps the rows of nine or more cells, converted. */
  lemma {:induction false} ConvertRowsIsFilterMap(rows: seq<Row>)
    ensures ConvertRows(rows) == FilterMap(rows, row => |row| >= 9, row requires |row| >= 9 => RowLocation(row))
    decreases |rows|
  {
    if rows != [] {
      ConvertRowsIsFilterMap(rows[..|rows| - 1]);
    }
  }

  /** The conversion keeps exactly the rows of nine or more cells, in order. */
  lemma ConvertRowsOrder(rows: seq<Row>) returns (idx: seq<nat>)
    ensures var locs := ConvertRows(rows);
      && |idx| == |locs| <= |rows|
      && (forall k :: 0 <= k < |idx| ==> idx[k] < |rows| && |rows[idx[k]]| >= 9 && locs[k] == RowLocation(rows[idx[k]]))
      && (forall k, k' :: 0 <= k < k' < |idx| ==> idx[k] < idx[k'])
      && (forall i :: 0 <= i < |rows| ==> (i in idx <==> |rows[i]| >= 9))
  {
    ConvertRowsIsFilterMap(rows);
    idx := FilterMapIndexes(rows, row => |row| >= 9, row requires |row| >= 9 => RowLocation(row));
  }

  /** GetLocationBySlug: the first location with the slug, else the zero value. */
  method GetLocationBySlug(locations: seq<Location>, slug: string) returns (r: Location)
    ensures (forall i :: 0 <= i < |locations| ==> locations[i].slug != slug) ==> r == ZeroLocation
    ensures forall i :: 0 <= i < |locations| && locations[i].slug == slug
                          && (forall j :: 0 <= j < i ==> locations[j].slug != slug)
                ==> r == locations[i]
  {
    var i := 0;
    while i < |locations|
      invariant 0 <= i <= |locations|
      invariant forall j :: 0 <= j < i ==> locations[j].slug != slug
    {
      if locations[i].slug == slug {
        return locations[i];
      }
      i := i + 1;
    }
    return ZeroLocation;
  }
}
