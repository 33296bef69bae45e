/**
 * The parameter sweep both automation scripts generate: 51 energies from
 * 5.0 to 10.0 GeV in steps of 0.1, two particle types and three sensor
 * orientations, and the names every run's files are given. The output file
 * name is the one OutputReader3.C later parses back into run metadata.
 */
module Sweep {
  import opened Wrappers
  import opened Strings
  import opened FilenameParser
  import opened FilenameLayout
  import TreeMerge

  const ParticleTypes: seq<string> := ["proton", "e-"]
  const Orientations: seq<string> := ["0deg 0deg 0deg", "15deg 0deg 0deg", "0deg 15deg 0deg"]

  /** The three rotation angles written into an orientation, as parseFilename reads them back. */
  datatype Angles = Angles(x: string, y: string, z: string)

  const OrientationAngles: seq<Angles> := [Angles("0", "0", "0"), Angles("15", "0", "0"), Angles("0", "15", "0")]

  /** Energy steps i = 0 .. 50. */
  const EnergySteps := 51

  /** The energy of step i in tenths of a GeV: 5.0 + 0.1 i GeV. */
  function EnergyTenths(i: nat): nat {
    50 + i
  }

  /** The energy printed with one decimal, "5.0" .. "10.0". */
  function EnergyText(i: nat): string {
    NatToString(EnergyTenths(i) / 10) + "." + [DigitChar(EnergyTenths(i) % 10)]
  }

  /** The energy as it appears in file names: the decimal point becomes '_'. */
  function EnergyFileText(i: nat): string {
    ReplaceChar(EnergyText(i), '.', '_')
  }

  /** The orientation as it appears in file names: blanks become '_'. */
  function OrientationFileText(orientation: string): string {
    ReplaceChar(orientation, ' ', '_')
  }

  /** `<energy>_<particle>_<orientation>`, the part every file name of a run shares. */
  function RunTag(i: nat, particle: string, orientation: string): string {
    EnergyFileText(i) + "_" + particle + "_" + OrientationFileText(orientation)
  }

  function DetectorConfigName(i: nat, particle: string, orientation: string): string {
    "detector_auto_" + RunTag(i, particle, orientation) + ".conf"
  }

  function MainConfigName(i: nat, particle: string, orientation: string): string {
    "main_auto_" + RunTag(i, particle, orientation) + ".conf"
  }

  const OutputDirectory := "/pulse_simulation/output_auto/"

  function OutputFileName(i: nat, particle: string, orientation: string): string {
    "data_auto_" + RunTag(i, particle, orientation) + ".root"
  }

  /** The path the simulation writes the run's data to. */
  function OutputPath(i: nat, particle: string, orientation: string): string {
    OutputDirectory + OutputFileName(i, particle, orientation)
  }

  /** The last component of a path: the text after its last '/'. */
  function BaseName(path: string): (name: string)
    ensures '/' !in name
    ensures |name| <= |path| && name == path[|path| - |name|..]
  {
    match LastIndexOf(path, '/')
    case None => path
    case Some(k) => path[k + 1..]
  }

  lemma BaseNameUnder(dir: string, name: string)
    requires |dir| > 0 && dir[|dir| - 1] == '/'
    requires '/' !in name
    ensures BaseName(dir + name) == name
  {
    var s := dir + name;
    var k := LastIndexOf(s, '/');
    assert s[|dir| - 1] == '/';
    assert LastIndexOf(s, '/') == Some(|dir| - 1);
    assert s[|dir|..] == name;
  }

  /** Replacing a character that does not occur changes nothing. */
  lemma ReplaceAbsentChar(s: string, a: char, b: char)
    requires a !in s
    ensures ReplaceChar(s, a, b) == s
  {
    var r := ReplaceChar(s, a, b);
    forall i | 0 <= i < |s|
      ensures r[i] == s[i]
    {
      assert s[i] != a;
    }
  }

  /** The file-name energy text is the whole GeV, '_', then the tenths digit. */
  lemma EnergyFileTextParts(i: nat)
    ensures var t := EnergyTenths(i);
      EnergyFileText(i) == NatToString(t / 10) + "_" + [DigitChar(t % 10)]
  {
    var t := EnergyTenths(i);
    var whole := NatToString(t / 10);
    var tenth := [DigitChar(t % 10)];
    assert '.' !in whole;
    assert '.' !in tenth;
    ReplaceCharAppend(whole + ".", tenth, '.', '_');
    ReplaceCharAppend(whole, ".", '.', '_');
    ReplaceAbsentChar(whole, '.', '_');
    ReplaceAbsentChar(tenth, '.', '_');
  }

  /** An orientation "a b c" in degrees becomes "adeg_bdeg_cdeg" in file names. */
  lemma OrientationFileTextParts(a: string, b: string, c: string)
    requires ' ' !in a && ' ' !in b && ' ' !in c
    ensures OrientationFileText(a + "deg " + b + "deg " + c + "deg") == a + "deg_" + b + "deg_" + c + "deg"
  {
    var s := a + "deg " + b + "deg " + c + "deg";
    var r := OrientationFileText(s);
    var e := a + "deg_" + b + "deg_" + c + "deg";
    assert |r| == |e|;
    forall i | 0 <= i < |s|
      ensures r[i] == e[i]
    {
      if i < |a| {
        assert s[i] == a[i] && e[i] == a[i];
      } else if i < |a| + 4 {
      } else if i < |a| + 4 + |b| {
        assert s[i] == b[i - |a| - 4] && e[i] == b[i - |a| - 4];
      } else if i < |a| + 8 + |b| {
      } else if i < |a| + 8 + |b| + |c| {
        assert s[i] == c[i - |a| - 8 - |b|] && e[i] == c[i - |a| - 8 - |b|];
      }
    }
  }

  /** Each orientation written out from its angles. */
  lemma OrientationsSpellAngles(k: nat)
    requires k < |Orientations|
    ensures var g := OrientationAngles[k];
      Orientations[k] == g.x + "deg " + g.y + "deg " + g.z + "deg"
  {
  }

  /** A text starting with a digit is a number to std::stof. */
  lemma LeadingDigitAccepted(s: string)
    requires |s| > 0 && IsDigit(s[0])
    ensures StofAccepts(s)
  {
    assert !IsCSpace(s[0]) && s[0] != '+' && s[0] != '-';
    assert SkipCSpace(s) == s;
  }

  /** An angle text parseFilename reads back whole: no separator, no marker, and a number to std::stof. */
  predicate PlainAngle(a: string) {
    ' ' !in a && '_' !in a && '/' !in a && !Contains(a, DegMarker) && StofAccepts(a)
  }

  lemma DigitsArePlainAngle(a: string)
    requires |a| > 0 && AllDigits(a)
    ensures PlainAngle(a)
  {
    LeadingDigitAccepted(a);
    forall k: nat | k <= |a|
      ensures !OccursAt(a, DegMarker, k)
    {
      if k + 3 <= |a| {
        assert a[k..k + 3][0] == a[k];
      }
    }
  }

  /** The two angle texts the sweep uses. */
  lemma SweepAnglePlain(a: string)
    requires a == "0" || a == "15"
    ensures PlainAngle(a)
  {
    assert AllDigits(a);
    DigitsArePlainAngle(a);
  }

  lemma AnglesArePlain(k: nat)
    requires k < |OrientationAngles|
    ensures var g := OrientationAngles[k]; PlainAngle(g.x) && PlainAngle(g.y) && PlainAngle(g.z)
  {
    var g := OrientationAngles[k];
    assert (g.x == "0" || g.x == "15") && (g.y == "0" || g.y == "15") && g.z == "0" by {
      if k == 0 {
      } else if k == 1 {
      } else {
      }
    }
    SweepAnglePlain(g.x);
    SweepAnglePlain(g.y);
    SweepAnglePlain(g.z);
  }

  /** The layout identity behind the output name, for any energy digits, particle and angles. */
  lemma OutputLayout(x: string, y: string, particle: string, a: string, b: string, c: string)
    ensures "data_auto_" + ((x + "_" + y) + "_" + particle + "_" + (a + "deg_" + b + "deg_" + c + "deg")) + ".root"
            == LayoutName("data", "auto", x, y, particle, a, b, c) + [] + "." + "root"
  {
  }

  lemma LayoutWithoutSlash(x: string, y: string, particle: string, a: string, b: string, c: string)
    requires '/' !in x && '/' !in y && '/' !in particle && '/' !in a && '/' !in b && '/' !in c
    ensures '/' !in LayoutName("data", "auto", x, y, particle, a, b, c) + [] + "." + "root"
  {
  }

  /** The output file name in the eight-segment layout parseFilename reads. */
  lemma OutputFileNameLayout(i: nat, particle: string, k: nat)
    requires k < |Orientations|
    ensures var t := EnergyTenths(i); var g := OrientationAngles[k];
      OutputFileName(i, particle, Orientations[k])
        == LayoutName("data", "auto", NatToString(t / 10), [DigitChar(t % 10)], particle, g.x, g.y, g.z) + [] + "." + "root"
  {
    var t := EnergyTenths(i);
    var g := OrientationAngles[k];
    EnergyFileTextParts(i);
    OrientationsSpellAngles(k);
    AnglesArePlain(k);
    OrientationFileTextParts(g.x, g.y, g.z);
    OutputLayout(NatToString(t / 10), [DigitChar(t % 10)], particle, g.x, g.y, g.z);
  }

  /** The output path's last component is the output file name. */
  lemma OutputBaseName(i: nat, particle: string, k: nat)
    requires k < |Orientations|
    requires '_' !in particle && '/' !in particle
    ensures BaseName(OutputPath(i, particle, Orientations[k])) == OutputFileName(i, particle, Orientations[k])
  {
    var t := EnergyTenths(i);
    var g := OrientationAngles[k];
    OutputFileNameLayout(i, particle, k);
    AnglesArePlain(k);
    LayoutWithoutSlash(NatToString(t / 10), [DigitChar(t % 10)], particle, g.x, g.y, g.z);
    BaseNameUnder(OutputDirectory, OutputFileName(i, particle, Orientations[k]));
  }

  /**
   * Round trip: the file a generated run writes is named so that
   * parseFilename recovers the particle type verbatim, the energy text and
   * the three angles of its orientation, and the merge sees the ".root"
   * extension it accepts.
   */
  lemma OutputNameRoundTrip(i: nat, particle: string, k: nat)
    requires k < |Orientations|
    requires '_' !in particle && '/' !in particle
    ensures var g := OrientationAngles[k];
      ParseFilename(BaseName(OutputPath(i, particle, Orientations[k])))
        == Success(InitialParameters(particle, EnergyText(i), g.x, g.y, g.z, DefaultEntries))
    ensures TreeMerge.Extension(BaseName(OutputPath(i, particle, Orientations[k]))) == TreeMerge.RootExtension
  {
    OutputBaseName(i, particle, k);
    OutputFileNameParses(i, particle, k);
    var stem := "data_auto_" + RunTag(i, particle, Orientations[k]);
    assert OutputFileName(i, particle, Orientations[k]) == stem + TreeMerge.RootExtension;
    TreeMerge.RootExtensionOf(stem);
  }

  lemma OutputFileNameParses(i: nat, particle: string, k: nat)
    requires k < |Orientations|
    requires '_' !in particle
    ensures var g := OrientationAngles[k];
      ParseFilename(OutputFileName(i, particle, Orientations[k]))
        == Success(InitialParameters(particle, EnergyText(i), g.x, g.y, g.z, DefaultEntries))
  {
    var t := EnergyTenths(i);
    var x := NatToString(t / 10);
    var y := [DigitChar(t % 10)];
    var g := OrientationAngles[k];
    OutputFileNameLayout(i, particle, k);
    AnglesArePlain(k);
    LeadingDigitAccepted(x + "." + y);
    ParseLayoutName("data", "auto", x, y, particle, g.x, g.y, g.z, [], "root");
  }

  /** Different energy steps print differently. */
  lemma EnergyTextInjective(i: nat, j: nat)
    requires EnergyText(i) == EnergyText(j)
    ensures i == j
  {
    var t, u := EnergyTenths(i), EnergyTenths(j);
    var a, b := NatToString(t / 10), NatToString(u / 10);
    var s := EnergyText(i);
    assert |a| == |b|;
    assert a == s[..|a|] && b == s[..|b|];
    NatToStringInjective(t / 10, u / 10);
    assert s[|s| - 1] == DigitChar(t % 10) == DigitChar(u % 10);
  }

  lemma AnglesDistinct(k: nat, k': nat)
    requires k < |OrientationAngles| && k' < |OrientationAngles|
    requires OrientationAngles[k] == OrientationAngles[k']
    ensures k == k'
  {
  }

  /**
   * No two runs of the sweep write the same output file: equal output paths
   * mean the same energy step, particle type and orientation.
   */
  lemma OutputPathsDistinct(i: nat, particle: string, k: nat, j: nat, particle': string, k': nat)
    requires k < |Orientations| && k' < |Orientations|
    requires '_' !in particle && '/' !in particle && '_' !in particle' && '/' !in particle'
    requires OutputPath(i, particle, Orientations[k]) == OutputPath(j, particle', Orientations[k'])
    ensures i == j && particle == particle' && k == k'
  {
    var g, g' := OrientationAngles[k], OrientationAngles[k'];
    assert InitialParameters(particle, EnergyText(i), g.x, g.y, g.z, DefaultEntries)
        == InitialParameters(particle', EnergyText(j), g'.x, g'.y, g'.z, DefaultEntries) by {
      OutputNameRoundTrip(i, particle, k);
      OutputNameRoundTrip(j, particle', k');
    }
    EnergyTextInjective(i, j);
    AnglesDistinct(k, k');
  }

  /** A task of the run list: the two config files of a run and its run id. */
  datatype Task = Task(mainConfig: string, detectorConfig: string, runId: nat)

  /** A generated run: its task and the texts written to its two config files. */
  datatype PreparedRun = PreparedRun(task: Task, mainText: string, detectorText: string)

  /** Runs per energy step, one per particle type and orientation. */
  const RunsPerEnergy := 6

  /** The number of runs the sweep generates: 51 * 2 * 3. */
  const RunCount := 306

  /** The position of a run in generation order: energies outermost, orientations innermost. */
  function RunIndex(i: nat, p: nat, o: nat): nat {
    RunsPerEnergy * i + |Orientations| * p + o
  }

  function EnergyStepOf(k: nat): nat {
    k / RunsPerEnergy
  }

  function ParticleOf(k: nat): (p: nat)
    ensures p < |ParticleTypes|
  {
    (k / |Orientations|) % |ParticleTypes|
  }

  function OrientationOf(k: nat): (o: nat)
    ensures o < |Orientations|
  {
    k % |Orientations|
  }

  /** Generation order numbers the runs 0 .. 305 one to one: RunIndex and the three projections are inverse. */
  lemma RunIndexInverse(i: nat, p: nat, o: nat)
    requires p < |ParticleTypes| && o < |Orientations|
    ensures var k := RunIndex(i, p, o);
      EnergyStepOf(k) == i && ParticleOf(k) == p && OrientationOf(k) == o
    ensures i < EnergySteps <==> RunIndex(i, p, o) < RunCount
  {
    var k := RunIndex(i, p, o);
    assert k == 3 * (2 * i + p) + o;
    assert k / 3 == 2 * i + p;
  }

  lemma RunIndexOnto(k: nat)
    ensures RunIndex(EnergyStepOf(k), ParticleOf(k), OrientationOf(k)) == k
    ensures k < RunCount ==> EnergyStepOf(k) < EnergySteps
  {
    assert k == 3 * (k / 3) + k % 3;
    assert k / 3 == 2 * (k / 3 / 2) + (k / 3) % 2;
    assert k / 3 / 2 == k / 6;
  }

  /** The task of the k-th run, the same in both scripts. */
  function TaskAt(k: nat): Task {
    var particle := ParticleTypes[ParticleOf(k)];
    var orientation := Orientations[OrientationOf(k)];
    Task(MainConfigName(EnergyStepOf(k), particle, orientation), DetectorConfigName(EnergyStepOf(k), particle, orientation), k)
  }

  /** The output file of the k-th run. */
  function OutputPathAt(k: nat): string {
    OutputPath(EnergyStepOf(k), ParticleTypes[ParticleOf(k)], Orientations[OrientationOf(k)])
  }

  lemma ParticleTypePlain(p: nat)
    requires p < |ParticleTypes|
    ensures '_' !in ParticleTypes[p] && '/' !in ParticleTypes[p]
  {
  }

  lemma ParticlesDistinct(p: nat, p': nat)
    requires p < |ParticleTypes| && p' < |ParticleTypes|
    requires ParticleTypes[p] == ParticleTypes[p']
    ensures p == p'
  {
    assert ParticleTypes[0][0] != ParticleTypes[1][0];
  }

  /** Every run of the sweep writes its own output file. */
  lemma OutputPathsOfRunsDistinct(k: nat, k': nat)
    requires OutputPathAt(k) == OutputPathAt(k')
    ensures k == k'
  {
    var p, p' := ParticleTypes[ParticleOf(k)], ParticleTypes[ParticleOf(k')];
    ParticleTypePlain(ParticleOf(k));
    ParticleTypePlain(ParticleOf(k'));
    OutputPathsDistinct(EnergyStepOf(k), p, OrientationOf(k), EnergyStepOf(k'), p', OrientationOf(k'));
    ParticlesDistinct(ParticleOf(k), ParticleOf(k'));
    RunIndexOnto(k);
    RunIndexOnto(k');
  }

  /** The k-th run's output parses back to its own particle, energy and angles. */
  lemma OutputOfRunParses(k: nat)
    ensures var g := OrientationAngles[OrientationOf(k)];
      ParseFilename(BaseName(OutputPathAt(k)))
        == Success(InitialParameters(ParticleTypes[ParticleOf(k)], EnergyText(EnergyStepOf(k)), g.x, g.y, g.z, DefaultEntries))
  {
    var p := ParticleTypes[ParticleOf(k)];
    assert '_' !in p && '/' !in p;
    OutputNameRoundTrip(EnergyStepOf(k), p, OrientationOf(k));
  }

  /** The value written for a string parameter: the text in double quotes. */
  function Quoted(s: string): string {
    "\"" + s + "\""
  }

  /** The two config texts a loop body writes for one run. */
  datatype ConfigTexts = ConfigTexts(main: string, detector: string)

  /**
   * A loop body's edits: the config texts of the run with the given energy
   * step, particle type and orientation.
   */
  type RunEditor = (nat, string, string) -> ConfigTexts

  /** The k-th run of the sweep in closed form, from its position alone. */
  function RunWith(edit: RunEditor, k: nat): PreparedRun {
    var texts := edit(EnergyStepOf(k), ParticleTypes[ParticleOf(k)], Orientations[OrientationOf(k)]);
    PreparedRun(TaskAt(k), texts.main, texts.detector)
  }

  /** The first n runs in generation order. */
  function RunsUpTo(edit: RunEditor, n: nat): (runs: seq<PreparedRun>)
    ensures |runs| == n
    ensures forall k :: 0 <= k < n ==> runs[k] == RunWith(edit, k)
  {
    if n == 0 then [] else RunsUpTo(edit, n - 1) + [RunWith(edit, n - 1)]
  }

  /**
   * The three nested loops both scripts run, energies outermost and
   * orientations innermost: 306 runs, numbered 0, 1, 2, ... in generation
   * order, the k-th being the run of energy step k / 6, particle type
   * (k / 3) % 2 and orientation k % 3.
   */
  method GenerateRuns(edit: RunEditor) returns (runs: seq<PreparedRun>)
    ensures |runs| == RunCount
    ensures forall k :: 0 <= k < |runs| ==> runs[k] == RunWith(edit, k)
  {
    runs := [];
    var runCounter := 0;
    var i := 0;
    while i < EnergySteps
      invariant 0 <= i <= EnergySteps
      invariant runCounter == RunIndex(i, 0, 0) && runs == RunsUpTo(edit, runCounter)
    {
      var p := 0;
      while p < |ParticleTypes|
        invariant 0 <= p <= |ParticleTypes|
        invariant runCounter == RunIndex(i, p, 0) && runs == RunsUpTo(edit, runCounter)
      {
        var o := 0;
        while o < |Orientations|
          invariant 0 <= o <= |Orientations|
          invariant runCounter == RunIndex(i, p, o) && runs == RunsUpTo(edit, runCounter)
        {
          var run := PrepareRun(edit, i, p, o, runCounter);
          runs := runs + [run];
          runCounter := runCounter + 1;
          o := o + 1;
        }
        p := p + 1;
      }
      i := i + 1;
    }
  }

  /** The body of the innermost loop: the names, the two edited configs and the task of one run. */
  method PrepareRun(edit: RunEditor, i: nat, p: nat, o: nat, runCounter: nat) returns (run: PreparedRun)
    requires p < |ParticleTypes| && o < |Orientations|
    requires runCounter == RunIndex(i, p, o)
    ensures run == RunWith(edit, runCounter)
  {
    var particle := ParticleTypes[p];
    var orientation := Orientations[o];
    var detName := DetectorConfigName(i, particle, orientation);
    var mainName := MainConfigName(i, particle, orientation);
    var texts := edit(i, particle, orientation);
    RunIndexInverse(i, p, o);
    run := PreparedRun(Task(mainName, detName, runCounter), texts.main, texts.detector);
  }
}
