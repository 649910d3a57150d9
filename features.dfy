/**
 * The pure part of the store locator's selection logic: the point records
 * shown on the map, the key that identifies a record, the search for a
 * record's position in the loaded sequence, the wrap-around choice of the
 * neighbouring page, and which markers the selection style highlights.
 */
module FeatureLookup {
  import opened Wrappers

  /** A geographic coordinate in degrees. */
  datatype Coordinate = Coordinate(latitude: real, longitude: real)

  /** CoreLocation's validity test: latitude within ±90 and longitude within ±180 degrees. */
  predicate IsValidCoordinate(c: Coordinate) {
    -90.0 <= c.latitude <= 90.0 && -180.0 <= c.longitude <= 180.0
  }

  /** An attribute value of a parsed point; only `Text` values pass Swift's `as? String`. */
  datatype Value = Text(text: string) | Number(number: int)

  /** A point feature: a coordinate and its attribute dictionary. */
  datatype Feature = Feature(coordinate: Coordinate, attributes: map<string, Value>)

  /** A freshly made point feature with no attributes, used to reset the markers. */
  const EmptyFeature := Feature(Coordinate(0.0, 0.0), map[])

  /** The attribute whose value identifies a store. */
  const UniqueIdentifier := "phone"

  /** The attribute the marker style compares against. */
  const NameAttribute := "name"

  /** `attribute(forKey: name) as? String`. */
  function StringAttribute(f: Feature, name: string): Option<string> {
    if name in f.attributes && f.attributes[name].Text? then Some(f.attributes[name].text) else None
  }

  predicate HasStringKey(f: Feature) {
    StringAttribute(f, UniqueIdentifier).Some?
  }

  /** The cache key of a feature: its phone attribute when that is a string, otherwise "". */
  function Key(f: Feature): (k: string)
    ensures HasStringKey(f) ==> k == f.attributes[UniqueIdentifier].text
    ensures !HasStringKey(f) ==> k == ""
  {
    StringAttribute(f, UniqueIdentifier).GetOr("")
  }

  /** `i` is the smallest position in `fs` whose feature has key `key`. */
  predicate IsFirstKeyIndex(fs: seq<Feature>, key: string, i: int) {
    0 <= i < |fs| && Key(fs[i]) == key && forall j :: 0 <= j < i ==> Key(fs[j]) != key
  }

  /** The features whose key is `key`, in their original order. */
  function KeyMatches(fs: seq<Feature>, key: string): (r: seq<Feature>)
    ensures forall g :: g in r ==> g in fs && Key(g) == key
    ensures forall i :: 0 <= i < |fs| && Key(fs[i]) == key ==> fs[i] in r
    ensures r == [] <==> forall i :: 0 <= i < |fs| ==> Key(fs[i]) != key
    ensures forall i :: IsFirstKeyIndex(fs, key, i) ==> r != [] && r[0] == fs[i]
    decreases |fs|
  {
    if fs == [] then []
    else
      var rest := KeyMatches(fs[1..], key);
      assert forall i :: IsFirstKeyIndex(fs, key, i) && i > 0 ==> IsFirstKeyIndex(fs[1..], key, i - 1);
      assert forall i :: 0 < i < |fs| ==> fs[i] == fs[1..][i - 1];
      if Key(fs[0]) == key then [fs[0]] + rest else rest
  }

  /** Swift's `firstIndex(of:)`: the first position holding `x`, if any. */
  function FirstIndexOf(fs: seq<Feature>, x: Feature): (r: Option<nat>)
    ensures r.None? <==> x !in fs
    ensures r.Some? ==> r.value < |fs| && fs[r.value] == x && forall j :: 0 <= j < r.value ==> fs[j] != x
    decreases |fs|
  {
    if fs == [] then None
    else if fs[0] == x then Some(0)
    else
      match FirstIndexOf(fs[1..], x)
      case None => None
      case Some(i) => Some(i + 1)
  }

  predicate AllKeysString(fs: seq<Feature>) {
    forall i :: 0 <= i < |fs| ==> HasStringKey(fs[i])
  }

  /**
   * What the index lookup's force-unwraps demand: the searched feature and
   * every loaded feature carry a string key, and some loaded feature has the
   * searched feature's key.
   */
  predicate CanLocate(fs: seq<Feature>, f: Feature) {
    HasStringKey(f) && AllKeysString(fs) && exists i :: 0 <= i < |fs| && Key(fs[i]) == Key(f)
  }

  lemma {:induction false} FirstKeyIndexExists(fs: seq<Feature>, key: string, i: nat)
    requires i < |fs| && Key(fs[i]) == key
    ensures exists i0 :: IsFirstKeyIndex(fs, key, i0)
  {
    if exists j :: 0 <= j < i && Key(fs[j]) == key {
      var j :| 0 <= j < i && Key(fs[j]) == key;
      FirstKeyIndexExists(fs, key, j);
    } else {
      assert IsFirstKeyIndex(fs, key, i);
    }
  }

  /**
   * The position of `f` in `fs`: the first of the features sharing f's key
   * is looked up with `firstIndex(of:)`, falling back to 0 when absent.
   */
  function IndexOf(fs: seq<Feature>, f: Feature): (r: nat)
    requires CanLocate(fs, f)
    ensures IsFirstKeyIndex(fs, Key(f), r)
  {
    var matches := KeyMatches(fs, Key(f));
    var i :| 0 <= i < |fs| && Key(fs[i]) == Key(f);
    FirstKeyIndexExists(fs, Key(f), i);
    var first := FirstIndexOf(fs, matches[0]);
    first.GetOr(0)
  }

  /** The page after position `i` of `n`: the next position, or 0 after the last. */
  function NextIndex(i: nat, n: nat): (r: nat)
    requires i < n
    ensures r < n
    ensures i < n - 1 ==> r == i + 1
    ensures i == n - 1 ==> r == 0
  {
    if i != n - 1 then i + 1 else 0
  }

  /** The page before position `i` of `n`: the previous position, or the last before 0. */
  function PrevIndex(i: nat, n: nat): (r: nat)
    requires i < n
    ensures r < n
    ensures i > 0 ==> r == i - 1
    ensures i == 0 ==> r == n - 1
  {
    if i - 1 < 0 then n - 1 else i - 1
  }

  /** Both page choices are arithmetic modulo the number of pages. */
  lemma PagingIsModular(i: nat, n: nat)
    requires i < n
    ensures NextIndex(i, n) == (i + 1) % n
    ensures PrevIndex(i, n) == (i + n - 1) % n
  {
  }

  /** Paging forward and backward undo each other on positions. */
  lemma PagingInverse(i: nat, n: nat)
    requires i < n
    ensures PrevIndex(NextIndex(i, n), n) == i
    ensures NextIndex(PrevIndex(i, n), n) == i
  {
  }

  predicate DistinctKeys(fs: seq<Feature>) {
    forall i, j :: 0 <= i < j < |fs| ==> Key(fs[i]) != Key(fs[j])
  }

  /** With string, pairwise distinct keys the lookup finds every loaded feature at its own position. */
  lemma IndexOfMember(fs: seq<Feature>, j: nat)
    requires AllKeysString(fs) && DistinctKeys(fs) && j < |fs|
    ensures CanLocate(fs, fs[j])
    ensures IndexOf(fs, fs[j]) == j
  {
  }

  /**
   * With distinct keys, the page before the page after a located feature is
   * that feature's own record, and so is the page after the page before it.
   */
  lemma BackwardAfterForward(fs: seq<Feature>, f: Feature)
    requires CanLocate(fs, f) && DistinctKeys(fs)
    ensures var i := IndexOf(fs, f);
      var next := fs[NextIndex(i, |fs|)];
      CanLocate(fs, next) && fs[PrevIndex(IndexOf(fs, next), |fs|)] == fs[i]
    ensures var i := IndexOf(fs, f);
      var prev := fs[PrevIndex(i, |fs|)];
      CanLocate(fs, prev) && fs[NextIndex(IndexOf(fs, prev), |fs|)] == fs[i]
  {
    var i := IndexOf(fs, f);
    IndexOfMember(fs, NextIndex(i, |fs|));
    IndexOfMember(fs, PrevIndex(i, |fs|));
    PagingInverse(i, |fs|);
  }

  /**
   * Without distinct keys forward paging can stick: when the stores at
   * positions i < j share a key, the lookup of the one at j finds a position
   * at or before i, so the page after it lies at or before j and no store
   * after position j is reached from it.
   */
  lemma DuplicateKeysStick(fs: seq<Feature>, i: nat, j: nat)
    requires i < j < |fs| && AllKeysString(fs) && Key(fs[i]) == Key(fs[j])
    ensures CanLocate(fs, fs[j])
    ensures IndexOf(fs, fs[j]) <= i
    ensures NextIndex(IndexOf(fs, fs[j]), |fs|) <= j
  {
  }

  /** The name a marker is compared by. */
  function NameOf(f: Feature): Option<string> {
    StringAttribute(f, NameAttribute)
  }

  /**
   * Whether the marker of `g` shows the selected image under the style
   * expression `TERNARY(name = highlighted, 'selected_marker', 'unselected_marker')`;
   * `None` stands for the constant 'unselected_marker'.
   */
  predicate MarkerSelected(highlighted: Option<string>, g: Feature)
    ensures highlighted.None? ==> !MarkerSelected(highlighted, g)
    ensures MarkerSelected(highlighted, g) ==> NameOf(g).Some? && NameOf(g).value == highlighted.value
  {
    highlighted.Some? && NameOf(g) == highlighted
  }
}
