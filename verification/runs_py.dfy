/**
 * The preparation loop of automation.py: the same sweep as automation.cpp,
 * with the Python replace_parameter, and a main config that gets the output
 * file, energy and particle type but no detector file.
 */
module RunsPy {
  import opened Wrappers
  import opened Strings
  import opened LineEdit
  import opened Sweep
  import ConfigPy

  /** The main config of a run: three replacements applied in the order the loop applies them. */
  function MainConfig(config: string, i: nat, particle: string, orientation: string): (r: string)
    ensures var lines := ConfigPy.SplitLines(config);
      && FirstWhere(lines, ConfigPy.PrefixedBy("file_name")).None?
      && FirstWhere(lines, ConfigPy.PrefixedBy("source_energy")).None?
      && FirstWhere(lines, ConfigPy.PrefixedBy("particle_type")).None?
      ==> r == config
  {
    var r := ConfigPy.ReplaceParameter(config, "file_name", Quoted(OutputPath(i, particle, orientation)));
    var r := ConfigPy.ReplaceParameter(r, "source_energy", EnergyText(i) + "GeV");
    ConfigPy.ReplaceParameter(r, "particle_type", Quoted(particle))
  }

  /** The detector config of a run: only the orientation is replaced. */
  function DetectorConfig(detector: string, orientation: string): (r: string)
    ensures FirstWhere(ConfigPy.SplitLines(detector), ConfigPy.PrefixedBy("orientation")).None? ==> r == detector
  {
    ConfigPy.ReplaceParameter(detector, "orientation", orientation)
  }

  /** The loop body's edits: the main and detector configs of one run. */
  function Editor(config: string, detector: string): RunEditor {
    (i: nat, particle: string, orientation: string) =>
      ConfigTexts(MainConfig(config, i, particle, orientation), DetectorConfig(detector, orientation))
  }

  /**
   * The preparation loop: 306 runs in generation order, the k-th with the
   * task of position k and the configs edited for energy step k / 6,
   * particle type (k / 3) % 2 and orientation k % 3.
   */
  method GenerateRuns(config: string, detector: string) returns (runs: seq<PreparedRun>)
    ensures |runs| == RunCount
    ensures forall k :: 0 <= k < |runs| ==>
      var i, particle, orientation := EnergyStepOf(k), ParticleTypes[ParticleOf(k)], Orientations[OrientationOf(k)];
      && runs[k].task == TaskAt(k)
      && runs[k].mainText == MainConfig(config, i, particle, orientation)
      && runs[k].detectorText == DetectorConfig(detector, orientation)
  {
    runs := Sweep.GenerateRuns(Editor(config, detector));
  }

  /** Two single lines put together are a single line. */
  lemma SingleLineAppend(a: string, b: string)
    requires ConfigPy.SingleLine(a) && ConfigPy.SingleLine(b)
    ensures ConfigPy.SingleLine(a + b)
  {
    forall k | 0 <= k < |a + b|
      ensures !ConfigPy.IsLineBoundary((a + b)[k])
    {
      if k < |a| {
        assert (a + b)[k] == a[k];
      } else {
        assert (a + b)[k] == b[k - |a|];
      }
    }
  }

  /** Printable ASCII text is a single line. */
  lemma PrintableSingleLine(s: string)
    requires forall k :: 0 <= k < |s| ==> ' ' <= s[k] <= '~'
    ensures ConfigPy.SingleLine(s)
  {
  }

  /** std::replace with a replacement that is no line boundary keeps a single line single. */
  lemma ReplaceCharSingleLine(s: string, a: char, b: char)
    requires ConfigPy.SingleLine(s) && !ConfigPy.IsLineBoundary(b)
    ensures ConfigPy.SingleLine(ReplaceChar(s, a, b))
  {
  }

  /** The energy text, in either spelling, is a single line. */
  lemma EnergySingleLine(i: nat)
    ensures ConfigPy.SingleLine(EnergyText(i) + "GeV")
    ensures ConfigPy.SingleLine(EnergyFileText(i))
  {
    var t := EnergyTenths(i);
    var whole := NatToString(t / 10);
    PrintableSingleLine(whole);
    PrintableSingleLine("." + [DigitChar(t % 10)]);
    PrintableSingleLine("GeV");
    SingleLineAppend(whole, "." + [DigitChar(t % 10)]);
    assert EnergyText(i) == whole + ("." + [DigitChar(t % 10)]);
    SingleLineAppend(EnergyText(i), "GeV");
    ReplaceCharSingleLine(EnergyText(i), '.', '_');
  }

  /** The run tag is a single line when the particle and orientation are. */
  lemma RunTagSingleLine(i: nat, particle: string, orientation: string)
    requires ConfigPy.SingleLine(particle) && ConfigPy.SingleLine(orientation)
    ensures ConfigPy.SingleLine(RunTag(i, particle, orientation))
  {
    EnergySingleLine(i);
    ReplaceCharSingleLine(orientation, ' ', '_');
    PrintableSingleLine("_");
    SingleLineAppend(EnergyFileText(i), "_");
    SingleLineAppend(EnergyFileText(i) + "_", particle);
    SingleLineAppend(EnergyFileText(i) + "_" + particle, "_");
    SingleLineAppend(EnergyFileText(i) + "_" + particle + "_", OrientationFileText(orientation));
  }

  /** The quoted output path is a single line when the particle and orientation are. */
  lemma OutputPathSingleLine(i: nat, particle: string, orientation: string)
    requires ConfigPy.SingleLine(particle) && ConfigPy.SingleLine(orientation)
    ensures ConfigPy.SingleLine(Quoted(OutputPath(i, particle, orientation)))
  {
    var tag := RunTag(i, particle, orientation);
    RunTagSingleLine(i, particle, orientation);
    PrintableSingleLine("\"" + OutputDirectory + "data_auto_");
    PrintableSingleLine(".root\"");
    SingleLineAppend("\"" + OutputDirectory + "data_auto_", tag);
    SingleLineAppend("\"" + OutputDirectory + "data_auto_" + tag, ".root\"");
    assert Quoted(OutputPath(i, particle, orientation)) == "\"" + OutputDirectory + "data_auto_" + tag + ".root\"";
  }

  lemma QuotedSingleLine(s: string)
    requires ConfigPy.SingleLine(s)
    ensures ConfigPy.SingleLine(Quoted(s))
  {
    PrintableSingleLine("\"");
    SingleLineAppend("\"", s);
    SingleLineAppend("\"" + s, "\"");
  }

  /** The three keys of the main config: single lines with distinct, non-blank first characters. */
  lemma KeysPlain()
    ensures ConfigPy.SingleLine("file_name") && ConfigPy.SingleLine("source_energy") && ConfigPy.SingleLine("particle_type")
    ensures "file_name"[0] == 'f' && "source_energy"[0] == 's' && "particle_type"[0] == 'p'
  {
    PrintableSingleLine("file_name");
    PrintableSingleLine("source_energy");
    PrintableSingleLine("particle_type");
  }

  /**
   * The main config of a run, read back line by line: the first line whose
   * stripped text starts with file_name, source_energy and particle_type
   * each holds the run's value, every other line is the template's, and a
   * final line break of the template is gone.
   */
  lemma MainConfigContents(config: string, i: nat, particle: string, orientation: string)
    requires ConfigPy.SingleLine(particle) && ConfigPy.SingleLine(orientation)
    requires var lines := ConfigPy.SplitLines(config); |lines| > 0 && lines[|lines| - 1] != []
    requires var lines := ConfigPy.SplitLines(config);
      && FirstWhere(lines, ConfigPy.PrefixedBy("file_name")).Some?
      && FirstWhere(lines, ConfigPy.PrefixedBy("source_energy")).Some?
      && FirstWhere(lines, ConfigPy.PrefixedBy("particle_type")).Some?
    ensures var lines := ConfigPy.SplitLines(config);
      var f1 := FirstWhere(lines, ConfigPy.PrefixedBy("file_name")).value;
      var f2 := FirstWhere(lines, ConfigPy.PrefixedBy("source_energy")).value;
      var f3 := FirstWhere(lines, ConfigPy.PrefixedBy("particle_type")).value;
      && f1 != f2 && f1 != f3 && f2 != f3
      && ConfigPy.SplitLines(MainConfig(config, i, particle, orientation))
         == lines[f1 := Assignment("file_name", Quoted(OutputPath(i, particle, orientation)))]
                 [f2 := Assignment("source_energy", EnergyText(i) + "GeV")]
                 [f3 := Assignment("particle_type", Quoted(particle))]
    ensures var r := MainConfig(config, i, particle, orientation); |r| > 0 && !ConfigPy.IsLineBoundary(r[|r| - 1])
  {
    var v1, v2, v3 := Quoted(OutputPath(i, particle, orientation)), EnergyText(i) + "GeV", Quoted(particle);
    OutputPathSingleLine(i, particle, orientation);
    EnergySingleLine(i);
    QuotedSingleLine(particle);
    KeysPlain();
    ConfigPy.ReplaceThree(config, "file_name", v1, "source_energy", v2, "particle_type", v3);
  }
}
