/**
 * The spreadsheet-backed location store (app/locations/locations.go): turning
 * the rows of the sheet's `values` matrix into locations, the whitelists of
 * standards, badges and tags, the linear-scan queries over the current
 * snapshot, and the poll step that replaces the snapshot.
 */
module Locations {
  import opened Wrappers
  import opened GoStrings
  import opened Sequences

  /** One row of the sheet's `values` matrix. */
  type Row = seq<string>

  datatype Location = Location(
    name: string,
    slug: string,
    url: string,
    description: string,
    lat: string,
    lng: string,
    standard: string,
    badges: seq<string>,
    tags: seq<string>,
    image: bool)

  /** Go's zero value `Location{}`, returned when a lookup finds nothing. */
  const ZeroLocation: Location := Location("", "", "", "", "", "", "", [], [], false)

  /** A label/value pair of a whitelist (Go's `Label` is `title` here: `label` is a Dafny keyword). */
  datatype SelectItem = SelectItem(title: string, value: string)

  const LocationStandards: seq<SelectItem> := [
    SelectItem("Gold", "gold"),
    SelectItem("Silver", "silver"),
    SelectItem("Bronze", "bronze")
  ]

  const LocationBadges: seq<SelectItem> := [
    SelectItem("Regenerative Organic Certified", "roc"),
    SelectItem("USDA Organic", "usda_o"),
    SelectItem("Certified Humane", "hum"),
    SelectItem("Patagonia Provisions", "patagonia")
  ]

  const LocationTags: seq<SelectItem> := [
    SelectItem("Beef", "beef"),
    SelectItem("Pork", "pork"),
    SelectItem("Fish", "fish"),
    SelectItem("Produce", "produce"),
    SelectItem("Poultry", "poultry"),
    SelectItem("Dairy", "dairy"),
    SelectItem("Grains", "grains"),
    SelectItem("Shellfish", "shellfish"),
    SelectItem("Honey", "honey"),
    SelectItem("Wine", "wine"),
    SelectItem("Beer", "beer")
  ]

  const ValidStandards: seq<string> := Values(LocationStandards, "Value")
  const ValidBadges: seq<string> := Values(LocationBadges, "Value")
  const ValidTags: seq<string> := Values(LocationTags, "Value")

  // ---------------------------------------------------------------------------
  // map_values and the whitelists
  // ---------------------------------------------------------------------------

  /** The labels or the values of `items`, in order; any other key selects nothing. */
  function Values(items: seq<SelectItem>, key: string): seq<string>
    decreases |items|
  {
    if items == [] then []
    else
      var last := items[|items| - 1];
      Values(items[..|items| - 1], key)
        + (if key == "Label" then [last.title] else if key == "Value" then [last.value] else [])
  }

  /** map_values: collect one field of every item. */
  method MapValues(items: seq<SelectItem>, key: string) returns (values: seq<string>)
    ensures values == Values(items, key)
    ensures key == "Value" ==> |values| == |items| && forall k :: 0 <= k < |items| ==> values[k] == items[k].value
    ensures key == "Label" ==> |values| == |items| && forall k :: 0 <= k < |items| ==> values[k] == items[k].title
    ensures key != "Value" && key != "Label" ==> values == []
  {
    values := [];
    var i := 0;
    while i < |items|
      invariant 0 <= i <= |items|
      invariant values == Values(items[..i], key)
    {
      assert items[..i + 1][..i] == items[..i];
      if key == "Label" {
        values := values + [items[i].title];
      } else if key == "Value" {
        values := values + [items[i].value];
      }
      i := i + 1;
    }
    assert items[..i] == items;
    ValuesOfValueKey(items);
    ValuesOfLabelKey(items);
    if key != "Value" && key != "Label" {
      ValuesOfOtherKey(items, key);
    }
  }

  /** Selecting the "Value" field lists each item's value, in order. */
  lemma {:induction false} ValuesOfValueKey(items: seq<SelectItem>)
    ensures |Values(items, "Value")| == |items|
    ensures forall k :: 0 <= k < |items| ==> Values(items, "Value")[k] == items[k].value
    decreases |items|
  {
    if items != [] {
      ValuesOfValueKey(items[..|items| - 1]);
    }
  }

  /** Selecting the "Label" field lists each item's label, in order. */
  lemma {:induction false} ValuesOfLabelKey(items: seq<SelectItem>)
    ensures |Values(items, "Label")| == |items|
    ensures forall k :: 0 <= k < |items| ==> Values(items, "Label")[k] == items[k].title
    decreases |items|
  {
    if items != [] {
      ValuesOfLabelKey(items[..|items| - 1]);
    }
  }

  /** Any other key selects nothing. */
  lemma {:induction false} ValuesOfOtherKey(items: seq<SelectItem>, key: string)
    requires key != "Value" && key != "Label"
    ensures Values(items, key) == []
    decreases |items|
  {
    if items != [] {
      ValuesOfOtherKey(items[..|items| - 1], key);
    }
  }

  /** The three whitelists hold exactly the values of their select items. */
  lemma Whitelists()
    ensures ValidStandards == ["gold", "silver", "bronze"]
    ensures ValidBadges == ["roc", "usda_o", "hum", "patagonia"]
    ensures ValidTags == ["beef", "pork", "fish", "produce", "poultry", "dairy", "grains",
                          "shellfish", "honey", "wine", "beer"]
  {
    StandardsWhitelist();
    BadgesWhitelist();
    ValuesOfValueKey(LocationTags);
  }

  lemma StandardsWhitelist()
    ensures ValidStandards == ["gold", "silver", "bronze"]
  {
    ValuesOfValueKey(LocationStandards);
  }

  lemma BadgesWhitelist()
    ensures ValidBadges == ["roc", "usda_o", "hum", "patagonia"]
  {
    ValuesOfValueKey(LocationBadges);
  }

  // ---------------------------------------------------------------------------
  // string_in_array and array_contains
  // ---------------------------------------------------------------------------

  /** string_in_array: is `s` one of the elements of `arr`? */
  method StringInArray(s: string, arr: seq<string>) returns (found: bool)
    ensures found <==> s in arr
  {
    for i := 0 to |arr|
      invariant s !in arr[..i]
    {
      if arr[i] == s {
        return true;
      }
    }
    return false;
  }

  /** The two lists share at least one element. */
  predicate Intersects(a: seq<string>, b: seq<string>)
  {
    exists i, j :: 0 <= i < |a| && 0 <= j < |b| && a[i] == b[j]
  }

  /** array_contains: do the two lists share an element? */
  method ArrayContains(arr: seq<string>, arr2: seq<string>) returns (found: bool)
    ensures found <==> Intersects(arr, arr2)
  {
    for i := 0 to |arr|
      invariant forall i', j :: 0 <= i' < i && 0 <= j < |arr2| ==> arr[i'] != arr2[j]
    {
      for j := 0 to |arr2|
        invariant forall j' :: 0 <= j' < j ==> arr[i] != arr2[j']
      {
        if arr[i] == arr2[j] {
          return true;
        }
      }
    }
    return false;
  }

  // ---------------------------------------------------------------------------
  // Normalising badges and tags (computed by SheetLocations, then discarded)
  // ---------------------------------------------------------------------------

  /** The trimmed, lower-cased form of a cell or piece. */
  function Normalise(s: string): string
  {
    ToLower(TrimSpace(s))
  }

  /** The normalised pieces that are on the whitelist, in order. */
  function Cleaned(parts: seq<string>, valid: seq<string>): seq<string>
    decreases |parts|
  {
    if parts == [] then []
    else
      var v := Normalise(parts[|parts| - 1]);
      Cleaned(parts[..|parts| - 1], valid) + (if v in valid then [v] else [])
  }

  /** Every cleaned value is on the whitelist and is the normalised form of a piece. */
  lemma {:induction false} CleanedWhitelisted(parts: seq<string>, valid: seq<string>)
    ensures |Cleaned(parts, valid)| <= |parts|
    ensures forall v :: v in Cleaned(parts, valid) ==> v in valid && exists p :: p in parts && Normalise(p) == v
    decreases |parts|
  {
    if parts != [] {
      var init := parts[..|parts| - 1];
      CleanedWhitelisted(init, valid);
      forall v | v in Cleaned(init, valid)
        ensures exists p :: p in parts && Normalise(p) == v
      {
        var p :| p in init && Normalise(p) == v;
        assert p in parts;
      }
      assert parts[|parts| - 1] in parts;
    }
  }

  /** Cleaning keeps the pieces whose normalised form is whitelisted, normalised. */
  lemma {:induction false} CleanedIsFilterMap(parts: seq<string>, valid: seq<string>)
    ensures Cleaned(parts, valid) == FilterMap(parts, p => Normalise(p) in valid, p => Normalise(p))
    decreases |parts|
  {
    if parts != [] {
      CleanedIsFilterMap(parts[..|parts| - 1], valid);
    }
  }

  /** The cleaned list holds, in their original order, the normalised forms of
      exactly the pieces whose normalised form is whitelisted. */
  lemma CleanedOrder(parts: seq<string>, valid: seq<string>) returns (idx: seq<nat>)
    ensures var r := Cleaned(parts, valid);
      && |idx| == |r| <= |parts|
      && (forall k :: 0 <= k < |idx| ==> idx[k] < |parts| && r[k] == Normalise(parts[idx[k]]) && r[k] in valid)
      && (forall k, k' :: 0 <= k < k' < |idx| ==> idx[k] < idx[k'])
      && (forall i :: 0 <= i < |parts| ==> (i in idx <==> Normalise(parts[i]) in valid))
  {
    CleanedIsFilterMap(parts, valid);
    idx := FilterMapIndexes(parts, p => Normalise(p) in valid, p => Normalise(p));
  }

  /** The per-piece loop of SheetLocations for badges and for tags. */
  method CleanValues(parts: seq<string>, valid: seq<string>) returns (cleaned: seq<string>)
    ensures cleaned == Cleaned(parts, valid)
    ensures forall v :: v in cleaned ==> v in valid
  {
    cleaned := [];
    var i := 0;
    while i < |parts|
      invariant 0 <= i <= |parts|
      invariant cleaned == Cleaned(parts[..i], valid)
    {
      assert parts[..i + 1][..i] == parts[..i];
      var piece := Normalise(parts[i]);
      var ok := StringInArray(piece, valid);
      if ok {
        cleaned := cleaned + [piece];
      }
      i := i + 1;
    }
    assert parts[..i] == parts;
    CleanedWhitelisted(parts, valid);
  }

  // ---------------------------------------------------------------------------
  // SheetLocations: rows to locations
  // ---------------------------------------------------------------------------

  /** The standard stored for a cell: its normalised form when that is on the
      whitelist, the empty string otherwise. */
  function StandardOf(cell: string): string
  {
    var standard := Normalise(cell);
    if standard in ValidStandards then standard else ""
  }

  /** What one iteration of the conversion loop does with a row. A row of nine
      cells passes the length guard but reading its tenth cell is out of range. */
  datatype RowOutcome = Skipped | OutOfRange | Converted(location: Location)

  function ConvertRow(row: Row): (r: RowOutcome)
    ensures r.Skipped? <==> |row| < 9
    ensures r.OutOfRange? <==> |row| == 9
    ensures r.Converted? <==> |row| >= 10
    ensures r.Converted? ==> r.location.name == row[0] && r.location.slug == row[1]
    ensures r.Converted? ==> (r.location.image <==> row[9] == "TRUE")
  {
    if |row| < 9 then Skipped
    else if |row| < 10 then OutOfRange
    else Converted(Location(
      row[0], row[1], row[2], row[3], row[4], row[5],
      StandardOf(row[6]),
      Split(row[7], ','),
      Split(row[8], ','),
      row[9] == "TRUE"))
  }

  /** The result of converting all rows: the locations, or the index of the
      row whose missing tenth cell made the conversion panic. */
  datatype SheetOutcome = Completed(locations: seq<Location>) | IndexOutOfRange(row: nat)

  function ConvertRows(rows: seq<Row>): SheetOutcome
    decreases |rows|
  {
    if rows == [] then Completed([])
    else
      match ConvertRows(rows[..|rows| - 1])
      case IndexOutOfRange(i) => IndexOutOfRange(i)
      case Completed(locs) =>
        match ConvertRow(rows[|rows| - 1])
        case Skipped => Completed(locs)
        case OutOfRange => IndexOutOfRange(|rows| - 1)
        case Converted(l) => Completed(locs + [l])
  }

  /** Once a prefix of the rows panics, the whole conversion panics at the same row. */
  lemma {:induction false} OutOfRangePersists(rows: seq<Row>, n: nat)
    requires n <= |rows| && ConvertRows(rows[..n]).IndexOutOfRange?
    ensures ConvertRows(rows) == ConvertRows(rows[..n])
    decreases |rows| - n
  {
    if n < |rows| {
      var init := rows[..|rows| - 1];
      assert init[..n] == rows[..n];
      OutOfRangePersists(init, n);
    } else {
      assert rows[..n] == rows;
    }
  }

  /** One more row: the conversion of a prefix extended by that row. */
  lemma ConvertRowsStep(rows: seq<Row>, i: nat)
    requires i < |rows|
    ensures ConvertRows(rows[..i + 1]) ==
      match ConvertRows(rows[..i])
      case IndexOutOfRange(j) => IndexOutOfRange(j)
      case Completed(locs) =>
        match ConvertRow(rows[i])
        case Skipped => Completed(locs)
        case OutOfRange => IndexOutOfRange(i)
        case Converted(l) => Completed(locs + [l])
  {
    assert rows[..i + 1][..i] == rows[..i];
  }

  /** SheetLocations, given whether the request got a response, its status and
      the decoded rows: no locations without a 200 response, otherwise the rows
      of the `values` matrix converted in order. */
  method SheetLocations(responded: bool, status: int, rows: seq<Row>) returns (outcome: SheetOutcome)
    ensures !responded || status != 200 ==> outcome == Completed([])
    ensures responded && status == 200 ==> outcome == ConvertRows(rows)
  {
    var locations: seq<Location> := [];
    if !responded {
      return Completed(locations);
    }
    if status != 200 {
      return Completed(locations);
    }
    var i := 0;
    while i < |rows|
      invariant 0 <= i <= |rows|
      invariant ConvertRows(rows[..i]) == Completed(locations)
    {
      ConvertRowsStep(rows, i);
      var row := rows[i];
      if |row| < 9 {
        i := i + 1;
        continue;
      }
      var badges := Split(row[7], ',');
      var locationBadges := CleanValues(badges, ValidBadges);
      var tags := Split(row[8], ',');
      var locationTags := CleanValues(tags, ValidTags);
      var locationStandard := "";
      var standard := Normalise(row[6]);
      var valid := StringInArray(standard, ValidStandards);
      if valid {
        locationStandard := standard;
      }
      if |row| < 10 {
        // row[9] does not exist: the Go code panics here
        OutOfRangePersists(rows, i + 1);
        return IndexOutOfRange(i);
      }
      var image := false;
      if row[9] == "TRUE" {
        image := true;
      }
      locations := locations + [Location(row[0], row[1], row[2], row[3], row[4], row[5],
                                         locationStandard, badges, tags, image)];
      i := i + 1;
    }
    assert rows[..i] == rows;
    return Completed(locations);
  }

  /** A converted row keeps cells 0-5 verbatim, keeps a standard only when its
      normalised form is whitelisted, stores the raw comma-split badge and tag
      cells (joining them gives the cells back), and has an image exactly when
      cell 9 is "TRUE". */
  lemma ConvertedRowFields(row: Row)
    requires ConvertRow(row).Converted?
    ensures var l := ConvertRow(row).location;
      && |row| >= 10
      && l.name == row[0] && l.slug == row[1] && l.url == row[2]
      && l.description == row[3] && l.lat == row[4] && l.lng == row[5]
      && (l.standard == "" || l.standard == "gold" || l.standard == "silver" || l.standard == "bronze")
      && (Normalise(row[6]) in ["gold", "silver", "bronze"] ==> l.standard == Normalise(row[6]))
      && (Normalise(row[6]) !in ["gold", "silver", "bronze"] ==> l.standard == "")
      && |l.badges| >= 1 && Join(l.badges, ',') == row[7]
      && (forall k :: 0 <= k < |l.badges| ==> ',' !in l.badges[k])
      && |l.tags| >= 1 && Join(l.tags, ',') == row[8]
      && (forall k :: 0 <= k < |l.tags| ==> ',' !in l.tags[k])
      && (l.image <==> row[9] == "TRUE")
  {
    StandardsWhitelist();
    JoinSplit(row[7], ',');
    JoinSplit(row[8], ',');
    SplitPiecesLackSeparator(row[7], ',');
    SplitPiecesLackSeparator(row[8], ',');
  }

  /** The stored badges are not validated: when the badge cell is "ROC, usda_o"
      both raw pieces are stored, neither on the whitelist, while the discarded
      normalised list holds "roc" and "usda_o". */
  lemma StoredBadgesAreRaw(row: Row)
    requires |row| >= 10 && row[7] == "ROC, usda_o"
    ensures ConvertRow(row).Converted?
    ensures ConvertRow(row).location.badges == ["ROC", " usda_o"]
    ensures forall b :: b in ConvertRow(row).location.badges ==> b !in ValidBadges
    ensures Cleaned(ConvertRow(row).location.badges, ValidBadges) == ["roc", "usda_o"]
  {
    SplitExample();
    RawBadgesInvalid();
    CleanedExample();
  }

  /** A piece, the separator and a second piece split into the two pieces. */
  lemma SplitTwo(a: string, b: string, sep: char)
    requires sep !in a && sep !in b
    ensures Split(a + [sep] + b, sep) == [a, b]
  {
    SplitWithoutSeparator(b, sep);
    SplitAtFirstSeparator(a, b, sep);
  }

  lemma SplitExample()
    ensures Split("ROC, usda_o", ',') == ["ROC", " usda_o"]
  {
    assert "ROC, usda_o" == "ROC" + [','] + " usda_o";
    SplitTwo("ROC", " usda_o", ',');
  }

  /** Cleaning two pieces cleans each in turn. */
  lemma CleanedTwo(a: string, b: string, valid: seq<string>)
    ensures Cleaned([a, b], valid)
      == (if Normalise(a) in valid then [Normalise(a)] else []) + (if Normalise(b) in valid then [Normalise(b)] else [])
  {
    assert [a, b][..1] == [a];
    assert [a][..0] == [];
    assert Cleaned([a], valid) == Cleaned([], valid) + (if Normalise(a) in valid then [Normalise(a)] else []);
  }

  /** Neither raw piece of "ROC, usda_o" is a valid badge. */
  lemma RawBadgesInvalid()
    ensures "ROC" !in ValidBadges && " usda_o" !in ValidBadges
  {
    BadgesWhitelist();
  }

  lemma CleanedExample()
    ensures Cleaned(["ROC", " usda_o"], ValidBadges) == ["roc", "usda_o"]
  {
    BadgesWhitelist();
    NormaliseExamples();
    CleanedTwo("ROC", " usda_o", ValidBadges);
  }

  lemma NormaliseExamples()
    ensures Normalise("ROC") == "roc"
    ensures Normalise(" usda_o") == "usda_o"
  {
    assert TrimLeft("ROC") == "ROC";
    assert TrimRight("ROC") == "ROC";
    assert TrimLeft(" usda_o") == TrimLeft("usda_o") == "usda_o";
    assert TrimRight("usda_o") == "usda_o";
  }

  /** A conversion panics exactly when some row has nine cells, and then it
      names the first such row. */
  lemma {:induction false} ConvertRowsOutOfRange(rows: seq<Row>)
    ensures ConvertRows(rows).IndexOutOfRange? <==> exists i :: 0 <= i < |rows| && |rows[i]| == 9
    ensures ConvertRows(rows).IndexOutOfRange? ==>
      var i := ConvertRows(rows).row;
      i < |rows| && |rows[i]| == 9 && forall i' :: 0 <= i' < i ==> |rows[i']| != 9
    decreases |rows|
  {
    if rows != [] {
      var init := rows[..|rows| - 1];
      ConvertRowsOutOfRange(init);
      assert forall i :: 0 <= i < |init| ==> init[i] == rows[i];
    }
  }

  /** A completed conversion converts the rows of ten or more cells and drops
      the others, none of which has exactly nine cells. */
  lemma {:induction false} CompletedIsFilterMap(rows: seq<Row>)
    requires ConvertRows(rows).Completed?
    ensures ConvertRows(rows).locations
      == FilterMap(rows, row => |row| >= 10, row requires |row| >= 10 => ConvertRow(row).location)
    ensures forall i :: 0 <= i < |rows| ==> |rows[i]| != 9
    decreases |rows|
  {
    if rows != [] {
      var n := |rows| - 1;
      CompletedIsFilterMap(rows[..n]);
      assert forall i :: 0 <= i < n ==> rows[..n][i] == rows[i];
    }
  }

  /** A completed conversion keeps the rows of ten or more cells, converted, in
      their original order, and drops every shorter row. */
  lemma ConvertRowsOrder(rows: seq<Row>) returns (idx: seq<nat>)
    requires ConvertRows(rows).Completed?
    ensures var locs := ConvertRows(rows).locations;
      && |idx| == |locs| <= |rows|
      && (forall k :: 0 <= k < |idx| ==> idx[k] < |rows| && ConvertRow(rows[idx[k]]) == Converted(locs[k]))
      && (forall k, k' :: 0 <= k < k' < |idx| ==> idx[k] < idx[k'])
      && (forall i :: 0 <= i < |rows| ==> (i in idx <==> |rows[i]| >= 10))
      && (forall i :: 0 <= i < |rows| ==> |rows[i]| != 9)
  {
    CompletedIsFilterMap(rows);
    idx := FilterMapIndexes(rows, row => |row| >= 10, row requires |row| >= 10 => ConvertRow(row).location);
  }

  // ---------------------------------------------------------------------------
  // Queries over a snapshot: FilterLocations and GetLocationBySlug
  // ---------------------------------------------------------------------------

  /** The conjunctive filter: an empty criterion is no constraint. */
  predicate Keep(loc: Location, standards: seq<string>, badges: seq<string>, tags: seq<string>)
  {
    && (|standards| == 0 || loc.standard in standards)
    && (|badges| == 0 || Intersects(loc.badges, badges))
    && (|tags| == 0 || Intersects(loc.tags, tags))
  }

  function Filtered(all: seq<Location>, standards: seq<string>, badges: seq<string>, tags: seq<string>)
    : seq<Location>
    decreases |all|
  {
    if all == [] then []
    else
      var last := all[|all| - 1];
      Filtered(all[..|all| - 1], standards, badges, tags)
        + (if Keep(last, standards, badges, tags) then [last] else [])
  }

  /** The filter keeps, unchanged, the locations meeting every criterion. */
  lemma {:induction false} FilteredIsFilterMap(all: seq<Location>, standards: seq<string>,
                                           badges: seq<string>, tags: seq<string>)
    ensures Filtered(all, standards, badges, tags) == FilterMap(all, loc => Keep(loc, standards, badges, tags), loc => loc)
    decreases |all|
  {
    if all != [] {
      FilteredIsFilterMap(all[..|all| - 1], standards, badges, tags);
    }
  }

  /** The filter keeps exactly the locations that meet every non-empty criterion,
      in their original order. */
  lemma FilteredSubsequence(all: seq<Location>, standards: seq<string>, badges: seq<string>, tags: seq<string>)
    returns (idx: seq<nat>)
    ensures var r := Filtered(all, standards, badges, tags);
      && |idx| == |r| <= |all|
      && (forall k :: 0 <= k < |idx| ==> idx[k] < |all| && r[k] == all[idx[k]])
      && (forall k, k' :: 0 <= k < k' < |idx| ==> idx[k] < idx[k'])
      && (forall i :: 0 <= i < |all| ==> (i in idx <==> Keep(all[i], standards, badges, tags)))
  {
    FilteredIsFilterMap(all, standards, badges, tags);
    idx := FilterMapIndexes(all, loc => Keep(loc, standards, badges, tags), loc => loc);
  }

  /** A location is in the filtered list exactly when it is in the snapshot and
      meets every non-empty criterion. */
  lemma FilteredMembership(all: seq<Location>, standards: seq<string>, badges: seq<string>,
                           tags: seq<string>, x: Location)
    ensures x in Filtered(all, standards, badges, tags) <==> x in all && Keep(x, standards, badges, tags)
  {
    var r := Filtered(all, standards, badges, tags);
    var idx := FilteredSubsequence(all, standards, badges, tags);
    if x in r {
      var k :| 0 <= k < |r| && r[k] == x;
      assert all[idx[k]] == x;
    }
    if x in all && Keep(x, standards, badges, tags) {
      var i :| 0 <= i < |all| && all[i] == x;
      assert i in idx;
      var k :| 0 <= k < |idx| && idx[k] == i;
      assert r[k] == x;
    }
  }

  /** With no criteria the filter returns the whole snapshot. */
  lemma {:induction false} FilterWithoutCriteria(all: seq<Location>)
    ensures Filtered(all, [], [], []) == all
    decreases |all|
  {
    if all != [] {
      FilterWithoutCriteria(all[..|all| - 1]);
      assert all[..|all| - 1] + [all[|all| - 1]] == all;
    }
  }

  /** Filtering by one standard keeps exactly the locations with that standard. */
  lemma FilterByOneStandard(all: seq<Location>, s: string, x: Location)
    ensures x in Filtered(all, [s], [], []) <==> x in all && x.standard == s
  {
    FilteredMembership(all, [s], [], [], x);
  }

  /** GetLocationBySlug's answer: the first location with the slug, else the zero value. */
  function BySlug(all: seq<Location>, slug: string): Location
    decreases |all|
  {
    if all == [] then ZeroLocation
    else if all[0].slug == slug then all[0]
    else BySlug(all[1..], slug)
  }

  /** The lookup returns the zero location, whose slug is empty, when no
      location has the slug. */
  lemma {:induction false} BySlugNoMatch(all: seq<Location>, slug: string)
    requires forall i :: 0 <= i < |all| ==> all[i].slug != slug
    ensures BySlug(all, slug) == ZeroLocation
    decreases |all|
  {
    if all != [] {
      BySlugNoMatch(all[1..], slug);
    }
  }

  /** The lookup returns the first location with the slug. */
  lemma {:induction false} BySlugFirstMatch(all: seq<Location>, slug: string, i: nat)
    requires i < |all| && all[i].slug == slug
    requires forall j :: 0 <= j < i ==> all[j].slug != slug
    ensures BySlug(all, slug) == all[i]
    decreases i
  {
    if i > 0 {
      BySlugFirstMatch(all[1..], slug, i - 1);
    }
  }

  /** The lookup's result carries the requested slug exactly when the slug is
      empty or some location has it. */
  lemma {:induction false} BySlugFound(all: seq<Location>, slug: string)
    ensures BySlug(all, slug).slug == slug <==> slug == "" || exists i :: 0 <= i < |all| && all[i].slug == slug
    decreases |all|
  {
    if all != [] && all[0].slug != slug {
      BySlugFound(all[1..], slug);
      if exists i :: 0 <= i < |all| && all[i].slug == slug {
        var i :| 0 <= i < |all| && all[i].slug == slug;
        assert all[1..][i - 1].slug == slug;
      }
      if exists i :: 0 <= i < |all[1..]| && all[1..][i].slug == slug {
        var i :| 0 <= i < |all[1..]| && all[1..][i].slug == slug;
        assert all[i + 1].slug == slug;
      }
    }
  }

  // ---------------------------------------------------------------------------
  // The snapshot and PollLocations
  // ---------------------------------------------------------------------------

  /** The snapshot a poll leaves: the fetched list when it is non-empty. */
  function PollUpdate(current: seq<Location>, fetched: seq<Location>): seq<Location>
  {
    if |fetched| > 0 then fetched else current
  }

  /** The snapshot after a series of polls. */
  function AfterPolls(initial: seq<Location>, fetches: seq<seq<Location>>): seq<Location>
    decreases |fetches|
  {
    if fetches == [] then initial
    else PollUpdate(AfterPolls(initial, fetches[..|fetches| - 1]), fetches[|fetches| - 1])
  }

  /** Polls that all fetch nothing leave the snapshot as it was. */
  lemma {:induction false} AfterEmptyPolls(initial: seq<Location>, fetches: seq<seq<Location>>)
    requires forall k :: 0 <= k < |fetches| ==> fetches[k] == []
    ensures AfterPolls(initial, fetches) == initial
    decreases |fetches|
  {
    if fetches != [] {
      var n := |fetches| - 1;
      assert forall k :: 0 <= k < n ==> fetches[..n][k] == fetches[k];
      AfterEmptyPolls(initial, fetches[..n]);
    }
  }

  /** A non-empty fetch followed only by empty ones is the final snapshot. */
  lemma {:induction false} AfterLatestPoll(initial: seq<Location>, fetches: seq<seq<Location>>, k: nat)
    requires k < |fetches| && fetches[k] != []
    requires forall k' :: k < k' < |fetches| ==> fetches[k'] == []
    ensures AfterPolls(initial, fetches) == fetches[k]
    decreases |fetches|
  {
    var n := |fetches| - 1;
    if k < n {
      assert forall k' :: k < k' < n ==> fetches[..n][k'] == fetches[k'];
      AfterLatestPoll(initial, fetches[..n], k);
    }
  }

  /** After a series of polls the snapshot is the last non-empty fetch, or the
      initial snapshot when every fetch was empty. */
  lemma AfterPollsIsLatestNonEmpty(initial: seq<Location>, fetches: seq<seq<Location>>)
    ensures (forall k :: 0 <= k < |fetches| ==> fetches[k] == []) ==> AfterPolls(initial, fetches) == initial
    ensures forall k :: 0 <= k < |fetches| && fetches[k] != [] && (forall k' :: k < k' < |fetches| ==> fetches[k'] == [])
                ==> AfterPolls(initial, fetches) == fetches[k]
  {
    if forall k :: 0 <= k < |fetches| ==> fetches[k] == [] {
      AfterEmptyPolls(initial, fetches);
    }
    forall k | 0 <= k < |fetches| && fetches[k] != [] && (forall k' :: k < k' < |fetches| ==> fetches[k'] == [])
      ensures AfterPolls(initial, fetches) == fetches[k]
    {
      AfterLatestPoll(initial, fetches, k);
    }
  }

  /** Once the snapshot holds a location, no poll empties it. */
  lemma {:induction false} AfterPollsNeverEmpties(initial: seq<Location>, fetches: seq<seq<Location>>)
    requires initial != []
    ensures AfterPolls(initial, fetches) != []
    decreases |fetches|
  {
    if fetches != [] {
      AfterPollsNeverEmpties(initial, fetches[..|fetches| - 1]);
    }
  }

  /** The package state: the current snapshot `allLocations`. */
  class LocationStore {
    var allLocations: seq<Location>

    /** init: the snapshot starts as the first conversion's result. */
    constructor (initial: seq<Location>)
      ensures allLocations == initial
    {
      allLocations := initial;
    }

    /** GetLocations: the current snapshot. */
    method GetLocations() returns (r: seq<Location>)
      ensures r == allLocations
    {
      r := allLocations;
    }

    /** One iteration of PollLocations' loop, given what the fetch returned. */
    method Poll(newLocations: seq<Location>)
      modifies this
      ensures allLocations == PollUpdate(old(allLocations), newLocations)
      ensures |newLocations| == 0 ==> allLocations == old(allLocations)
      ensures |newLocations| > 0 ==> allLocations == newLocations
    {
      if |newLocations| > 0 {
        allLocations := newLocations;
      }
    }

    /** GetLocationBySlug: the first location of the snapshot with the slug, else the zero value. */
    method GetLocationBySlug(slug: string) returns (r: Location)
      ensures r == BySlug(allLocations, slug)
      ensures r.slug == slug || r == ZeroLocation
    {
      var i := 0;
      while i < |allLocations|
        invariant 0 <= i <= |allLocations|
        invariant BySlug(allLocations, slug) == BySlug(allLocations[i..], slug)
      {
        if allLocations[i].slug == slug {
          return allLocations[i];
        }
        assert allLocations[i..][1..] == allLocations[i + 1..];
        i := i + 1;
      }
      return ZeroLocation;
    }

    /** FilterLocations: the locations of the snapshot that meet every non-empty criterion. */
    method FilterLocations(standards: seq<string>, badges: seq<string>, tags: seq<string>)
      returns (locations: seq<Location>)
      ensures locations == Filtered(allLocations, standards, badges, tags)
    {
      locations := [];
      var i := 0;
      while i < |allLocations|
        invariant 0 <= i <= |allLocations|
        invariant locations == Filtered(allLocations[..i], standards, badges, tags)
      {
        var location := allLocations[i];
        assert allLocations[..i + 1][..i] == allLocations[..i];
        i := i + 1;
        if |standards| > 0 {
          var found := StringInArray(location.standard, standards);
          if !found {
            continue;
          }
        }
        if |badges| > 0 {
          var found := ArrayContains(location.badges, badges);
          if !found {
            continue;
          }
        }
        if |tags| > 0 {
          var found := ArrayContains(location.tags, tags);
          if !found {
            continue;
          }
        }
        locations := locations + [location];
      }
      assert allLocations[..i] == allLocations;
    }
  }
}
