/**
 * The preparation loop of automation.cpp: for every energy step, particle
 * type and orientation, the detector template gets the orientation, the
 * main template gets the output file, energy, particle type and detector
 * file, and a task with the next run id is recorded.
 */
module RunsCpp {
  import opened Strings
  import opened LineEdit
  import opened Sweep
  import ConfigCpp

  /** The main config of a run: four replacements applied in the order the loop applies them. */
  function MainConfig(config: string, i: nat, particle: string, orientation: string): (r: string)
    ensures |config| == 0 <==> r == []
    ensures r != [] ==> r[|r| - 1] == ConfigCpp.Newline
  {
    var r := ConfigCpp.ReplaceParameter(config, "file_name", Quoted(OutputPath(i, particle, orientation)));
    var r := ConfigCpp.ReplaceParameter(r, "source_energy", EnergyText(i) + "GeV");
    var r := ConfigCpp.ReplaceParameter(r, "particle_type", Quoted(particle));
    ConfigCpp.ReplaceParameter(r, "detectors_file", Quoted(DetectorConfigName(i, particle, orientation)))
  }

  /** The detector config of a run: only the orientation is replaced. */
  function DetectorConfig(detector: string, orientation: string): (r: string)
    ensures |detector| == 0 <==> r == []
    ensures r != [] ==> r[|r| - 1] == ConfigCpp.Newline
  {
    ConfigCpp.ReplaceParameter(detector, "orientation", orientation)
  }

  /** The loop body's edits: the main and detector configs of one run. */
  function Editor(config: string, detector: string): RunEditor {
    (i: nat, particle: string, orientation: string) =>
      ConfigTexts(MainConfig(config, i, particle, orientation), DetectorConfig(detector, orientation))
  }

  /**
   * The preparation loop: 306 runs in generation order, the k-th with the
   * task of position k and the configs edited for energy step k / 6,
   * particle type (k / 3) % 2 and orientation k % 3.
   */
  method GenerateRuns(config: string, detector: string) returns (runs: seq<PreparedRun>)
    ensures |runs| == RunCount
    ensures forall k :: 0 <= k < |runs| ==>
      var i, particle, orientation := EnergyStepOf(k), ParticleTypes[ParticleOf(k)], Orientations[OrientationOf(k)];
      && runs[k].task == TaskAt(k)
      && runs[k].mainText == MainConfig(config, i, particle, orientation)
      && runs[k].detectorText == DetectorConfig(detector, orientation)
  {
    runs := Sweep.GenerateRuns(Editor(config, detector));
  }

  /** The four edits of the main config, in the order the loop applies them. */
  function MainEdits(i: nat, particle: string, orientation: string): seq<ConfigCpp.Edit> {
    [ ConfigCpp.Edit("file_name", Quoted(OutputPath(i, particle, orientation))),
      ConfigCpp.Edit("source_energy", EnergyText(i) + "GeV"),
      ConfigCpp.Edit("particle_type", Quoted(particle)),
      ConfigCpp.Edit("detectors_file", Quoted(DetectorConfigName(i, particle, orientation))) ]
  }

  lemma MainConfigAsEdits(config: string, i: nat, particle: string, orientation: string)
    ensures MainConfig(config, i, particle, orientation) == ConfigCpp.ReplaceEach(config, MainEdits(i, particle, orientation))
  {
    FourEdits(config, MainEdits(i, particle, orientation));
  }

  /** Four edits in a row are four replacements in a row. */
  lemma FourEdits(content: string, edits: seq<ConfigCpp.Edit>)
    requires |edits| == 4
    ensures ConfigCpp.ReplaceEach(content, edits)
         == ConfigCpp.ReplaceParameter(ConfigCpp.ReplaceParameter(ConfigCpp.ReplaceParameter(
              ConfigCpp.ReplaceParameter(content, edits[0].param, edits[0].value),
              edits[1].param, edits[1].value), edits[2].param, edits[2].value), edits[3].param, edits[3].value)
  {
    var r1 := ConfigCpp.ReplaceParameter(content, edits[0].param, edits[0].value);
    var r2 := ConfigCpp.ReplaceParameter(r1, edits[1].param, edits[1].value);
    var r3 := ConfigCpp.ReplaceParameter(r2, edits[2].param, edits[2].value);
    var r4 := ConfigCpp.ReplaceParameter(r3, edits[3].param, edits[3].value);
    assert edits[1..][0] == edits[1] && edits[1..][1..] == edits[2..];
    assert edits[2..][0] == edits[2] && edits[2..][1..] == edits[3..];
    assert edits[3..][0] == edits[3] && edits[3..][1..] == edits[4..];
    ConfigCpp.ReplaceEachCons(content, edits);
    ConfigCpp.ReplaceEachCons(r1, edits[1..]);
    ConfigCpp.ReplaceEachCons(r2, edits[2..]);
    ConfigCpp.ReplaceEachCons(r3, edits[3..]);
    assert ConfigCpp.ReplaceEach(r4, edits[4..]) == r4;
  }

  /** A character absent from a text and different from the replacement stays absent. */
  lemma ReplaceCharKeepsAbsent(s: string, a: char, b: char, c: char)
    requires c !in s && c != b
    ensures c !in ReplaceChar(s, a, b)
  {
    var r := ReplaceChar(s, a, b);
    forall k | 0 <= k < |r|
      ensures r[k] != c
    {
      assert s[k] != c;
    }
  }

  /** The run tag is on one line when the particle and orientation are. */
  lemma RunTagSingleLine(i: nat, particle: string, orientation: string)
    requires '\n' !in particle && '\n' !in orientation
    ensures '\n' !in EnergyText(i)
    ensures '\n' !in RunTag(i, particle, orientation)
  {
    var t := EnergyTenths(i);
    assert '\n' !in NatToString(t / 10);
    ReplaceCharKeepsAbsent(EnergyText(i), '.', '_', '\n');
    ReplaceCharKeepsAbsent(orientation, ' ', '_', '\n');
  }

  /** Every value written into the main config fits on one line, and no key is written twice. */
  lemma MainEditsSingleLine(i: nat, particle: string, orientation: string)
    requires '\n' !in particle && '\n' !in orientation
    ensures ConfigCpp.SingleLineValues(MainEdits(i, particle, orientation))
    ensures ConfigCpp.DistinctParams(MainEdits(i, particle, orientation))
  {
    RunTagSingleLine(i, particle, orientation);
    var tag := RunTag(i, particle, orientation);
    assert '\n' !in OutputPath(i, particle, orientation) by {
      assert OutputPath(i, particle, orientation) == OutputDirectory + ("data_auto_" + tag + ".root");
    }
    assert '\n' !in DetectorConfigName(i, particle, orientation);
    var edits := MainEdits(i, particle, orientation);
    assert edits[0].param[0] == 'f' && edits[1].param[0] == 's' && edits[2].param[0] == 'p' && edits[3].param[0] == 'd';
  }

  /**
   * The main config of a run, read back line by line: the first line keyed
   * file_name, source_energy, particle_type and detectors_file each hold the
   * run's value; every other line, including a later line with one of these
   * keys, is the template's.
   */
  lemma MainConfigContents(config: string, i: nat, particle: string, orientation: string)
    requires '\n' !in particle && '\n' !in orientation
    ensures var lines := GetlineSplit(config, ConfigCpp.Newline);
      var out := GetlineSplit(MainConfig(config, i, particle, orientation), ConfigCpp.Newline);
      var edits := MainEdits(i, particle, orientation);
      ConfigCpp.Assigned(lines, edits, out) && ConfigCpp.Untouched(lines, edits, out)
  {
    var edits := MainEdits(i, particle, orientation);
    MainEditsSingleLine(i, particle, orientation);
    MainConfigAsEdits(config, i, particle, orientation);
    ConfigCpp.ReplaceEachLines(config, edits);
    ConfigCpp.ReplaceEachLineSpec(GetlineSplit(config, ConfigCpp.Newline), edits);
  }
}
