/**
 * Candidate files and the editor locations built from them. The file
 * system is a set of existing files; keeping the existing candidates of
 * an ordered list is the step every finder of the server ends with.
 */
module Locations {
  import opened Options
  import opened Paths
  import opened Ts

  /** A file and a range inside it (the `Location` of the editor protocol). */
  datatype Location = Location(uri: Path, range: Range)

  /** The empty range at the start of a file, used when a whole file is the target. */
  const DefaultRange: Range := Range(Position(0, 0), Position(0, 0))

  /** The candidates that exist, in their original order. */
  function Existing(cands: seq<Path>, files: set<Path>): (r: seq<Path>)
    ensures |r| <= |cands|
    ensures forall p :: p in r <==> p in cands && p in files
  {
    if |cands| == 0 then []
    else (if cands[0] in files then [cands[0]] else []) + Existing(cands[1..], files)
  }

  /** Filtering a concatenation filters each part and keeps their order. */
  lemma {:induction false} ExistingAppend(a: seq<Path>, b: seq<Path>, files: set<Path>)
    ensures Existing(a + b, files) == Existing(a, files) + Existing(b, files)
  {
    if |a| > 0 {
      assert (a + b)[0] == a[0] && (a + b)[1..] == a[1..] + b;
      ExistingAppend(a[1..], b, files);
    } else {
      assert a + b == b;
    }
  }

  /** One more candidate adds itself when it exists, nothing otherwise. */
  lemma ExistingSnoc(a: seq<Path>, c: Path, files: set<Path>)
    ensures Existing(a + [c], files) == Existing(a, files) + (if c in files then [c] else [])
  {
    ExistingAppend(a, [c], files);
    assert [c][1..] == [];
  }

  /** Each existing candidate as a location at the start of the file. */
  function Locate(cands: seq<Path>, files: set<Path>): (r: seq<Location>)
    ensures |r| == |Existing(cands, files)|
  {
    ToLocations(Existing(cands, files))
  }

  function ToLocations(ps: seq<Path>): (r: seq<Location>)
    ensures |r| == |ps|
  {
    if |ps| == 0 then [] else [Location(ps[0], DefaultRange)] + ToLocations(ps[1..])
  }

  /** Location `i` is the `i`-th path at the start of the file. */
  lemma {:induction false} ToLocationsAt(ps: seq<Path>, i: nat)
    requires i < |ps|
    ensures ToLocations(ps)[i] == Location(ps[i], DefaultRange)
    decreases |ps|
  {
    if i > 0 {
      ToLocationsAt(ps[1..], i - 1);
    }
  }

  lemma {:induction false} ToLocationsAppend(a: seq<Path>, b: seq<Path>)
    ensures ToLocations(a + b) == ToLocations(a) + ToLocations(b)
  {
    if |a| > 0 {
      assert (a + b)[0] == a[0] && (a + b)[1..] == a[1..] + b;
      ToLocationsAppend(a[1..], b);
    } else {
      assert a + b == b;
    }
  }

  /** Locating a concatenation locates each part, in order. */
  lemma LocateAppend(a: seq<Path>, b: seq<Path>, files: set<Path>)
    ensures Locate(a + b, files) == Locate(a, files) + Locate(b, files)
  {
    ExistingAppend(a, b, files);
    ToLocationsAppend(Existing(a, files), Existing(b, files));
  }

  /** Every location found names an existing file. */
  lemma LocateExisting(cands: seq<Path>, files: set<Path>)
    ensures forall l :: l in Locate(cands, files) ==> l.uri in files && l.uri in cands && l.range == DefaultRange
  {
    forall l | l in Locate(cands, files)
      ensures l.uri in files && l.uri in cands && l.range == DefaultRange
    {
      var i :| 0 <= i < |Locate(cands, files)| && Locate(cands, files)[i] == l;
      ToLocationsAt(Existing(cands, files), i);
      assert Existing(cands, files)[i] in Existing(cands, files);
    }
  }

  /** `path_to_location`: an existing file as a location at its start, nothing otherwise. */
  function PathToLocation(p: Path, files: set<Path>): (r: Option<Location>)
    ensures r.Some? <==> p in files
    ensures r.Some? ==> r.value.uri == p && r.value.range == DefaultRange
  {
    if p in files then Some(Location(p, DefaultRange)) else None
  }

  /** Locating one more candidate adds its location exactly when it exists. */
  lemma LocateSnoc(cands: seq<Path>, p: Path, files: set<Path>)
    ensures Locate(cands + [p], files) == Locate(cands, files) + (if p in files then [Location(p, DefaultRange)] else [])
  {
    LocateAppend(cands, [p], files);
    assert Existing([p], files) == (if p in files then [p] else []) + Existing([], files);
  }

  /** Locating one more candidate of a list, as a loop over the list does. */
  lemma LocatePrefixStep(cands: seq<Path>, i: nat, files: set<Path>)
    requires i < |cands|
    ensures Locate(cands[..i + 1], files)
         == Locate(cands[..i], files) + (if cands[i] in files then [Location(cands[i], DefaultRange)] else [])
  {
    assert cands[..i + 1] == cands[..i] + [cands[i]];
    LocateSnoc(cands[..i], cands[i], files);
  }
}
