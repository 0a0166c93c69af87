/**
 * The search part of the `/returncolorcode` handler: a first-match scan over
 * the records deserialised from colors.json, comparing names with
 * `OrdinalIgnoreCase`, answering with the HEX code of the first match or
 * "not found". Reading and deserialising the file is not modelled; the list
 * arrives as a parameter, `None` standing for a null list.
 */
module ColorLookup {
  import opened Wrappers
  import DotNet

  /** The `Code` object of a record; a missing HEX deserialises to null. */
  datatype ColorCode = ColorCode(HEX: Option<string>)

  /** One record of colors.json; a missing field deserialises to null. */
  datatype Color = Color(Name: Option<string>, Code: Option<ColorCode>)

  /**
   * What the handler answers: `Results.Ok(hex)` (with a null body when the
   * matching record's HEX is null), `Results.NotFound`, or an escaping exception.
   */
  datatype Reply = Ok(hex: Option<string>) | NotFound | Threw(fault: DotNet.Fault)

  /** The lambda given to `FirstOrDefault` answers true for this entry. */
  predicate Hits(c: Color, color: string) {
    c.Name.Some? && DotNet.EqualsIgnoreCase(c.Name.value, color)
  }

  /** The lambda answers false for this entry without throwing. */
  predicate Passes(c: Color, color: string) {
    c.Name.Some? && !DotNet.EqualsIgnoreCase(c.Name.value, color)
  }

  /** Entry `i` matches and every entry before it is passed over. */
  predicate IsFirstHit(colors: seq<Color>, color: string, i: int) {
    0 <= i < |colors| && Hits(colors[i], color) && forall j :: 0 <= j < i ==> Passes(colors[j], color)
  }

  /** The scan reaches entry `i` and its null name throws. */
  predicate ThrowsAt(colors: seq<Color>, color: string, i: int) {
    0 <= i < |colors| && colors[i].Name.None? && forall j :: 0 <= j < i ==> Passes(colors[j], color)
  }

  /** No entry matches and none throws. */
  predicate NoneMatch(colors: seq<Color>, color: string) {
    forall i :: 0 <= i < |colors| ==> Passes(colors[i], color)
  }

  /** The three ways `FirstOrDefault` can end. */
  datatype Search = Hit(index: nat) | Miss | NameIsNull

  /** `FirstOrDefault` resumed at entry `k`, all earlier entries having been passed over. */
  function FirstOrDefaultFrom(colors: seq<Color>, color: string, k: nat): (r: Search)
    requires k <= |colors|
    requires forall j :: 0 <= j < k ==> Passes(colors[j], color)
    ensures r.Hit? <==> exists i :: IsFirstHit(colors, color, i)
    ensures r.Hit? ==> IsFirstHit(colors, color, r.index)
    ensures r.Miss? <==> NoneMatch(colors, color)
    ensures r.NameIsNull? <==> exists i :: ThrowsAt(colors, color, i)
    decreases |colors| - k
  {
    if k == |colors| then
      assert forall i :: !IsFirstHit(colors, color, i) && !ThrowsAt(colors, color, i) by {
        forall i | 0 <= i < |colors|
          ensures !IsFirstHit(colors, color, i) && !ThrowsAt(colors, color, i)
        {
          assert Passes(colors[i], color);
        }
      }
      Miss
    else if colors[k].Name.None? then
      assert ThrowsAt(colors, color, k);
      assert forall i :: !IsFirstHit(colors, color, i);
      NameIsNull
    else if DotNet.EqualsIgnoreCase(colors[k].Name.value, color) then
      assert IsFirstHit(colors, color, k);
      assert forall i :: !ThrowsAt(colors, color, i);
      Hit(k)
    else FirstOrDefaultFrom(colors, color, k + 1)
  }

  /** At most one entry is the first match. */
  lemma FirstHitUnique(colors: seq<Color>, color: string, i: int, j: int)
    requires IsFirstHit(colors, color, i) && IsFirstHit(colors, color, j)
    ensures i == j
  {
  }

  /** The handler after the file read: `colors?.FirstOrDefault(...)` and the null test on its result. */
  function ReturnColorCode(colors: Option<seq<Color>>, color: string): (r: Reply)
    ensures r.Ok? <==> colors.Some? && exists i :: IsFirstHit(colors.value, color, i) && colors.value[i].Code.Some?
    ensures r.Ok? ==> exists i :: IsFirstHit(colors.value, color, i) && colors.value[i].Code == Some(ColorCode(r.hex))
    ensures r.NotFound? <==> colors.None? || NoneMatch(colors.value, color)
    ensures r.Threw? ==> r.fault == DotNet.NullReference
  {
    match colors
    case None => NotFound
    case Some(cs) =>
      match FirstOrDefaultFrom(cs, color, 0)
      case Hit(i) =>
        (match cs[i].Code
         case Some(code) => Ok(code.HEX)
         case None => Threw(DotNet.NullReference))
      case Miss => NotFound
      case NameIsNull => Threw(DotNet.NullReference)
  }

  /** The answer depends on the queried name only up to case. */
  lemma QueryCaseInsensitive(colors: Option<seq<Color>>, a: string, b: string)
    requires DotNet.EqualsIgnoreCase(a, b)
    ensures ReturnColorCode(colors, a) == ReturnColorCode(colors, b)
  {
    if colors.Some? {
      var cs := colors.value;
      forall c: Color | c.Name.Some?
        ensures DotNet.EqualsIgnoreCase(c.Name.value, a) <==> DotNet.EqualsIgnoreCase(c.Name.value, b)
      {
        DotNet.EqualsIgnoreCaseIsEquivalence(c.Name.value, a, b);
        DotNet.EqualsIgnoreCaseIsEquivalence(c.Name.value, b, a);
      }
      var ra, rb := ReturnColorCode(colors, a), ReturnColorCode(colors, b);
      if ra.Ok? {
        var i :| IsFirstHit(cs, a, i) && cs[i].Code == Some(ColorCode(ra.hex));
        var j :| IsFirstHit(cs, b, j) && cs[j].Code == Some(ColorCode(rb.hex));
        assert IsFirstHit(cs, b, i);
        FirstHitUnique(cs, b, i, j);
      }
    }
  }

  /** A palette in the shape of colors.json. */
  const SamplePalette: seq<Color> := [
    Color(Some("Black"), Some(ColorCode(Some("#000000")))),
    Color(Some("Red"), Some(ColorCode(Some("#FF0000")))),
    Color(Some("Dark Red"), Some(ColorCode(Some("#8B0000")))),
    Color(Some("RED"), Some(ColorCode(Some("#EE0000"))))
  ]

  /** The integration test's query "red" finds the first entry named "Red", not the later "RED". */
  lemma IntegrationTestCase()
    ensures ReturnColorCode(Some(SamplePalette), "red") == Ok(Some("#FF0000"))
    ensures ReturnColorCode(Some(SamplePalette), "purple") == NotFound
    ensures ReturnColorCode(None, "red") == NotFound
    ensures ReturnColorCode(Some([]), "red") == NotFound
  {
    assert IsFirstHit(SamplePalette, "red", 1);
    assert Passes(SamplePalette[0], "red");
    assert !DotNet.EqualsIgnoreCase("Black", "purple") && !DotNet.EqualsIgnoreCase("Dark Red", "purple");
    assert !DotNet.EqualsIgnoreCase("Red", "purple") && !DotNet.EqualsIgnoreCase("RED", "purple");
  }

  /**
   * Null fields: a matching record with a null HEX answers Ok with a null
   * body, a matching record with a null Code throws, and a null name reached
   * before the match throws.
   */
  lemma NullFieldCases()
    ensures ReturnColorCode(Some([Color(Some("Red"), Some(ColorCode(None)))]), "red") == Ok(None)
    ensures ReturnColorCode(Some([Color(Some("Red"), None)]), "red") == Threw(DotNet.NullReference)
    ensures ReturnColorCode(Some([Color(None, None)] + SamplePalette), "red") == Threw(DotNet.NullReference)
  {
    assert IsFirstHit([Color(Some("Red"), Some(ColorCode(None)))], "red", 0);
    assert IsFirstHit([Color(Some("Red"), None)], "red", 0);
    assert ThrowsAt([Color(None, None)] + SamplePalette, "red", 0);
  }
}
