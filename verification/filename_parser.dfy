/**
 * Run metadata recovered from an output file name of the form
 * `data_auto_<x>_<y>_<particle>_<a>deg_<b>deg_<c>deg.root`
 * (OutputReader3.C: InitialParameters, parseDegree, parseFilename).
 *
 * The numeric fields hold the exact text that the source hands to
 * std::stof; which texts stof accepts is modelled by StofAccepts, the
 * conversion to a float is not.
 */
module FilenameParser {
  import opened Wrappers
  import opened Strings

  /** The text of a number, as handed to std::stof. */
  type NumberText = string

  /** The initial conditions of one simulation run. */
  datatype InitialParameters = InitialParameters(
    particleType: string,
    particleEnergy: NumberText,
    xRotation: NumberText,
    yRotation: NumberText,
    zRotation: NumberText,
    // how many consecutive entries of the merged tree belong to this run
    numberOfEntries: int)

  /** The exceptions parseFilename and parseDegree can raise. */
  datatype ParseError =
    | NotEnoughParts                  // "Filename does not have enough parts"
    | MissingDegSuffix(segment: string) // "Missing 'deg' suffix"
    | InvalidNumber(text: string)     // std::invalid_argument from std::stof

  /** Default value of numberOfEntries in the struct declaration. */
  const DefaultEntries := 1

  const DegMarker := "deg"

  /** White space as isspace() classifies it in the C locale. */
  predicate IsCSpace(c: char) {
    c == ' ' || c == '\t' || c == '\n' || c == '\U{000B}' || c == '\U{000C}' || c == '\r'
  }

  function SkipCSpace(s: string): (r: string)
    ensures |r| <= |s| && r == s[|s| - |r|..]
    ensures forall i :: 0 <= i < |s| - |r| ==> IsCSpace(s[i])
    ensures |r| > 0 ==> !IsCSpace(r[0])
  {
    if |s| > 0 && IsCSpace(s[0]) then SkipCSpace(s[1..]) else s
  }

  function SkipSign(s: string): (r: string)
    ensures r == s || (|s| > 0 && (s[0] == '+' || s[0] == '-') && r == s[1..])
    ensures |s| > 0 && (s[0] == '+' || s[0] == '-') ==> r == s[1..]
  {
    if |s| > 0 && (s[0] == '+' || s[0] == '-') then s[1..] else s
  }

  function AsciiLower(c: char): char {
    if 'A' <= c <= 'Z' then (c as int + 32) as char else c
  }

  /** `s` starts with the lower-case word `w`, ignoring the case of ASCII letters. */
  predicate StartsWithIgnoringCase(s: string, w: string) {
    |w| <= |s| && forall i :: 0 <= i < |w| ==> AsciiLower(s[i]) == w[i]
  }

  /**
   * std::stof succeeds in converting some prefix of `s` (C locale strtof):
   * after white space and an optional sign comes a digit, a radix point
   * followed by a digit, or the words "inf" / "nan" in any case. Hexadecimal
   * forms start with the digit 0 and are covered by the first case.
   */
  predicate StofAccepts(s: string) {
    var u := SkipSign(SkipCSpace(s));
    || (|u| > 0 && IsDigit(u[0]))
    || (|u| > 1 && u[0] == '.' && IsDigit(u[1]))
    || StartsWithIgnoringCase(u, "inf")
    || StartsWithIgnoringCase(u, "nan")
  }

  /** A non-empty digit string is always accepted by std::stof. */
  lemma DigitsAccepted(s: string)
    requires |s| > 0 && AllDigits(s)
    ensures StofAccepts(s)
    ensures StofAccepts(s + "." + s)
  {
    assert IsDigit(s[0]);
    assert (s + "." + s)[0] == s[0];
  }

  /** The number text std::stof is given, or the invalid_argument it throws. */
  function StofText(s: string): (r: Result<NumberText, ParseError>)
    ensures r.Success? <==> StofAccepts(s)
    ensures r.Success? ==> r.value == s
    ensures r.Failure? ==> r.error == InvalidNumber(s)
  {
    if StofAccepts(s) then Success(s) else Failure(InvalidNumber(s))
  }

  /**
   * `v` is the text in front of the FIRST occurrence of "deg" in `segment`
   * (the marker need not end the segment).
   */
  predicate DegreePrefix(segment: string, v: string) {
    && OccursAt(segment, DegMarker, |v|)
    && v == segment[..|v|]
    && forall k: nat :: k < |v| ==> !OccursAt(segment, DegMarker, k)
  }

  /** parseDegree: the number in front of the first "deg" of a segment. */
  function ParseDegree(segment: string): (r: Result<NumberText, ParseError>)
    ensures !Contains(segment, DegMarker) <==> r == Failure(MissingDegSuffix(segment))
    ensures r.Success? ==> DegreePrefix(segment, r.value) && StofAccepts(r.value)
    ensures r.Failure? && Contains(segment, DegMarker) ==>
              r.error.InvalidNumber? && DegreePrefix(segment, r.error.text) && !StofAccepts(r.error.text)
  {
    match Find(segment, DegMarker)
    case None => Failure(MissingDegSuffix(segment))
    case Some(pos) => StofText(segment[..pos])
  }

  /** A number written in front of "deg" is read back, whatever follows the marker. */
  lemma ParseDegreeOfMarked(a: string, rest: string)
    requires !Contains(a, DegMarker) && StofAccepts(a)
    ensures ParseDegree(a + DegMarker + rest) == Success(a)
  {
    var s := a + DegMarker + rest;
    assert OccursAt(s, DegMarker, |a|);
    forall k: nat | k < |a|
      ensures !OccursAt(s, DegMarker, k)
    {
      NoEarlierMarker(a, rest, k);
    }
    assert s[..|a|] == a;
  }

  lemma NoEarlierMarker(a: string, rest: string, k: nat)
    requires k < |a| && !Contains(a, DegMarker)
    ensures !OccursAt(a + DegMarker + rest, DegMarker, k)
  {
    var s := a + DegMarker + rest;
    if k + 3 <= |a| {
      assert s[k..k + 3] == a[k..k + 3];
      assert !OccursAt(a, DegMarker, k);
    } else {
      assert s[|a|] == 'd';
      assert s[k..k + 3][|a| - k] == s[|a|];
      assert DegMarker[|a| - k] != 'd';
    }
  }

  /** The file name with the text from its last '.' on removed; a name without '.' is kept whole. */
  function StripExtension(filename: string): (name: string)
    ensures '.' !in filename ==> name == filename
    ensures name == filename || (|name| < |filename| && name == filename[..|name|] && filename[|name|] == '.'
                                 && '.' !in filename[|name| + 1..])
  {
    match LastIndexOf(filename, '.')
    case None => filename
    case Some(k) => filename[..k]
  }

  /** Only the final extension is removed: dots earlier in the name stay. */
  lemma StripAppendedExtension(filename: string, ext: string)
    requires '.' !in ext
    ensures StripExtension(filename + "." + ext) == filename
  {
    var s := filename + "." + ext;
    assert s[|filename|] == '.';
    assert s[|filename| + 1..] == ext;
  }

  /** The '_'-separated segments of the extension-stripped name. */
  function Segments(filename: string): seq<string> {
    GetlineSplit(StripExtension(filename), '_')
  }

  /** The three angle segments, in order, all parse. */
  predicate AnglesParse(parts: seq<string>)
    requires |parts| >= 8
  {
    ParseDegree(parts[5]).Success? && ParseDegree(parts[6]).Success? && ParseDegree(parts[7]).Success?
  }

  /** parseFilename: the run metadata encoded in an output file name. */
  function ParseFilename(filename: string): (r: Result<InitialParameters, ParseError>)
    ensures r.Success? ==> r.value.numberOfEntries == DefaultEntries
  {
    var parts := Segments(filename);
    if |parts| < 8 then Failure(NotEnoughParts)
    else
      var energy := parts[2] + "." + parts[3];
      var a, b, c := ParseDegree(parts[5]), ParseDegree(parts[6]), ParseDegree(parts[7]);
      if !StofAccepts(energy) then Failure(InvalidNumber(energy))
      else if a.Failure? then Failure(a.error)
      else if b.Failure? then Failure(b.error)
      else if c.Failure? then Failure(c.error)
      else Success(InitialParameters(parts[4], energy, a.value, b.value, c.value, DefaultEntries))
  }

  /**
   * What parseFilename accepts and what it returns: fewer than eight
   * segments is NotEnoughParts; otherwise the energy text and the three
   * angle segments must all parse, and then the fields are the energy
   * segments joined by '.', the fifth segment verbatim, and the text in
   * front of "deg" in segments six to eight. Segments after the eighth are
   * not looked at.
   */
  lemma ParseFilenameSpec(filename: string)
    ensures var r := ParseFilename(filename); var parts := Segments(filename);
      && (|parts| < 8 <==> r == Failure(NotEnoughParts))
      && (r.Success? <==> |parts| >= 8 && StofAccepts(parts[2] + "." + parts[3]) && AnglesParse(parts))
      && (r.Success? ==>
            && r.value.particleEnergy == parts[2] + "." + parts[3]
            && r.value.particleType == parts[4]
            && DegreePrefix(parts[5], r.value.xRotation)
            && DegreePrefix(parts[6], r.value.yRotation)
            && DegreePrefix(parts[7], r.value.zRotation))
  {
  }
}

/** What parseFilename promises about names built in the documented layout. */
module FilenameLayout {
  import opened Wrappers
  import opened Strings
  import opened FilenameParser

  /** The extension-less name `p0_p1_x_y_type_adeg_bdeg_cdeg`. */
  function LayoutName(p0: string, p1: string, x: string, y: string, particle: string,
                      a: string, b: string, c: string): string
  {
    p0 + "_" + p1 + "_" + x + "_" + y + "_" + particle + "_" + a + "deg_" + b + "deg_" + c + "deg"
  }

  lemma LayoutNameSegments(p0: string, p1: string, x: string, y: string, particle: string,
                           a: string, b: string, c: string)
    ensures LayoutName(p0, p1, x, y, particle, a, b, c)
            == Join([p0, p1, x, y, particle, a + DegMarker, b + DegMarker, c + DegMarker], "_")
  {
    LayoutNameNested(p0, p1, x, y, particle, a, b, c);
    JoinEight([p0, p1, x, y, particle, a + DegMarker, b + DegMarker, c + DegMarker], "_");
  }

  /** The layout name grouped from the right, one segment and separator at a time. */
  lemma LayoutNameNested(p0: string, p1: string, x: string, y: string, particle: string,
                         a: string, b: string, c: string)
    ensures LayoutName(p0, p1, x, y, particle, a, b, c)
            == p0 + "_" + (p1 + "_" + (x + "_" + (y + "_" + (particle + "_"
                 + (a + DegMarker + "_" + (b + DegMarker + "_" + (c + DegMarker)))))))
  {
    assert "deg_" == DegMarker + "_";
  }

  /** Eight pieces joined, grouped from the right. */
  lemma JoinEight(ps: seq<string>, sep: string)
    requires |ps| == 8
    ensures Join(ps, sep)
            == ps[0] + sep + (ps[1] + sep + (ps[2] + sep + (ps[3] + sep + (ps[4] + sep
                 + (ps[5] + sep + (ps[6] + sep + ps[7]))))))
  {
    assert Join(ps[6..], sep) == ps[6] + sep + Join(ps[7..], sep);
    assert Join(ps[5..], sep) == ps[5] + sep + Join(ps[6..], sep);
    assert Join(ps[4..], sep) == ps[4] + sep + Join(ps[5..], sep);
    assert Join(ps[3..], sep) == ps[3] + sep + Join(ps[4..], sep);
    assert Join(ps[2..], sep) == ps[2] + sep + Join(ps[3..], sep);
    assert Join(ps[1..], sep) == ps[1] + sep + Join(ps[2..], sep);
  }

  /**
   * Round trip: a name in the documented layout, with any further
   * '_'-segments after the eighth and any extension, parses to the particle
   * type verbatim, the energy text `x.y` and the three angle texts. The
   * first two segments are not inspected.
   */
  lemma ParseLayoutName(p0: string, p1: string, x: string, y: string, particle: string,
                        a: string, b: string, c: string, extra: string, ext: string)
    requires '_' !in p0 && '_' !in p1 && '_' !in x && '_' !in y && '_' !in particle
    requires '_' !in a && '_' !in b && '_' !in c
    requires !Contains(a, DegMarker) && !Contains(b, DegMarker) && !Contains(c, DegMarker)
    requires StofAccepts(x + "." + y) && StofAccepts(a) && StofAccepts(b) && StofAccepts(c)
    requires extra == [] || extra[0] == '_'
    requires '.' !in ext
    ensures ParseFilename(LayoutName(p0, p1, x, y, particle, a, b, c) + extra + "." + ext)
            == Success(InitialParameters(particle, x + "." + y, a, b, c, DefaultEntries))
  {
    LayoutSegments(p0, p1, x, y, particle, a, b, c, extra, ext);
    ParseDegreeOfSuffixed(a);
    ParseDegreeOfSuffixed(b);
    ParseDegreeOfSuffixed(c);
  }

  /** The first eight segments of a layout name are its eight fields, the last three with their markers. */
  lemma LayoutSegments(p0: string, p1: string, x: string, y: string, particle: string,
                       a: string, b: string, c: string, extra: string, ext: string)
    requires '_' !in p0 && '_' !in p1 && '_' !in x && '_' !in y && '_' !in particle
    requires '_' !in a && '_' !in b && '_' !in c
    requires extra == [] || extra[0] == '_'
    requires '.' !in ext
    ensures var parts := Segments(LayoutName(p0, p1, x, y, particle, a, b, c) + extra + "." + ext);
      && |parts| >= 8
      && parts[2] == x && parts[3] == y && parts[4] == particle
      && parts[5] == a + DegMarker && parts[6] == b + DegMarker && parts[7] == c + DegMarker
  {
    var name := LayoutName(p0, p1, x, y, particle, a, b, c);
    var ps := [p0, p1, x, y, particle, a + DegMarker, b + DegMarker, c + DegMarker];
    LayoutNameSegments(p0, p1, x, y, particle, a, b, c);
    StripAppendedExtension(name + extra, ext);
    assert '_' !in DegMarker;
    GetlineSplitJoined(ps, extra, '_');
    var parts := Segments(name + extra + "." + ext);
    forall i | 2 <= i < 8
      ensures parts[i] == ps[i]
    {
      assert parts[i] == parts[..8][i];
    }
  }

  lemma ParseDegreeOfSuffixed(a: string)
    requires !Contains(a, DegMarker) && StofAccepts(a)
    ensures ParseDegree(a + DegMarker) == Success(a)
  {
    ParseDegreeOfMarked(a, []);
    assert a + DegMarker + [] == a + DegMarker;
  }

  /** The marker need not end its segment: "15degrees" reads as 15. */
  lemma DegreeMarkerNeedNotBeSuffix()
    ensures ParseDegree("15degrees") == Success("15")
  {
    ParseShortMarked("15", "rees", "15degrees");
  }

  /** A digit string shorter than the marker, then the marker and anything, reads as that digit string. */
  lemma ParseShortMarked(a: string, rest: string, segment: string)
    requires segment == a + DegMarker + rest
    requires 0 < |a| < |DegMarker| && AllDigits(a)
    ensures ParseDegree(segment) == Success(a)
  {
    assert !Contains(a, DegMarker);
    DigitsAccepted(a);
    ParseDegreeOfMarked(a, rest);
  }
}
