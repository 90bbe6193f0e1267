/** `AsciidocConverter` of src/lightspeed_rag_content/asciidoc/asciidoc_converter.py:
    the attribute list read from a YAML file, the choice of the ruby
    converter script, the lookup of the asciidoctor executable, and the
    argument vector `convert` hands to asciidoctor.

    The environment is passed in: `which` is what `shutil.which("asciidoctor")`
    returned, `cwd` is the working directory `absolute()` resolves against,
    `exists` answers `Path.exists()`, and `run` says whether the asciidoctor
    process given a vector exits with status 0. */
module Asciidoc {
  import opened Wrappers
  import opened PyStrings
  import opened PurePaths

  /** A YAML scalar as `yaml.safe_load` returns it. */
  datatype Scalar = Str(text: string) | Int(number: int) | Bool(truth: bool) | Null

  /** What `yaml.safe_load` gives for the attributes file: `None` (an empty
      document), a mapping with its entries in iteration order, or any other
      node, named by its Python type. */
  datatype YamlDoc = DocNull | DocMapping(entries: seq<(Scalar, Scalar)>) | DocOther(typeName: string)

  /** The attributes argument: `None` when no file is given, otherwise what
      opening and parsing the file produced, an error included. */
  type AttributesSource = Option<Result<YamlDoc, Error>>

  function TypeName(v: Scalar): string
  {
    match v
    case Str(_) => "str"
    case Int(_) => "int"
    case Bool(_) => "bool"
    case Null => "NoneType"
  }

  /** `"%s" % value`. */
  function ValueText(v: Scalar): string
  {
    match v
    case Str(t) => t
    case Int(n) => IntToString(n)
    case Bool(b) => if b then "True" else "False"
    case Null => "None"
  }

  /** The TypeError of `key + "=..."` when `key` is not a string. */
  function KeyTypeError(key: Scalar): Error
  {
    TypeError("unsupported operand type(s) for +: '" + TypeName(key) + "' and 'str'")
  }

  predicate StrKeys(entries: seq<(Scalar, Scalar)>)
  {
    forall k :: 0 <= k < |entries| ==> entries[k].0.Str?
  }

  /** The `key=value` operand of one `-a` flag. */
  function Flag(entry: (Scalar, Scalar)): string
    requires entry.0.Str?
  {
    entry.0.text + "=" + ValueText(entry.1)
  }

  /** The flags `-a key=value` for the entries in order, or the TypeError of
      the first entry whose key is not a string. */
  function EntryFlags(entries: seq<(Scalar, Scalar)>): Result<seq<string>, Error>
  {
    if entries == [] then Success([])
    else match EntryFlags(entries[..|entries| - 1])
      case Failure(e) => Failure(e)
      case Success(flags) =>
        var entry := entries[|entries| - 1];
        if entry.0.Str? then Success(flags + ["-a", Flag(entry)])
        else Failure(KeyTypeError(entry.0))
  }

  /** `_get_attribute_list`: no file gives no flags; an open or parse error
      propagates; an empty document gives no flags; a mapping gives its flags;
      any other document fails on `.items()`. */
  function AttributeList(source: AttributesSource): (r: Result<seq<string>, Error>)
    ensures source.None? ==> r == Success([])
    ensures source == Some(Success(DocNull)) ==> r == Success([])
    ensures r.Failure? ==>
              || (source.Some? && source.value.Failure? && r.error == source.value.error)
              || r.error.TypeError? || r.error.AttributeError?
  {
    match source
    case None => Success([])
    case Some(Failure(e)) => Failure(e)
    case Some(Success(DocNull)) => Success([])
    case Some(Success(DocOther(t))) => Failure(AttributeError("'" + t + "' object has no attribute 'items'"))
    case Some(Success(DocMapping(entries))) =>
      EntryFlagsTypeError(entries);
      EntryFlags(entries)
  }

  /** Building the flags fails only with a TypeError. */
  lemma {:induction false} EntryFlagsTypeError(entries: seq<(Scalar, Scalar)>)
    ensures EntryFlags(entries).Failure? ==> EntryFlags(entries).error.TypeError?
  {
    if entries != [] {
      EntryFlagsTypeError(entries[..|entries| - 1]);
    }
  }

  /** One more entry adds its flags, or fails on its key. */
  lemma EntryFlagsStep(entries: seq<(Scalar, Scalar)>, i: nat)
    requires i < |entries| && EntryFlags(entries[..i]).Success?
    ensures entries[i].0.Str? ==> EntryFlags(entries[..i + 1]) == Success(EntryFlags(entries[..i]).value + ["-a", Flag(entries[i])])
    ensures !entries[i].0.Str? ==> EntryFlags(entries[..i + 1]) == Failure(KeyTypeError(entries[i].0))
  {
    assert entries[..i + 1][..i] == entries[..i] && entries[..i + 1][i] == entries[i];
  }

  lemma {:induction false} EntryFlagsFailurePersists(entries: seq<(Scalar, Scalar)>, i: nat)
    requires i <= |entries|
    requires EntryFlags(entries[..i]).Failure?
    ensures EntryFlags(entries) == EntryFlags(entries[..i])
    decreases |entries| - i
  {
    if i < |entries| {
      assert entries[..i + 1][..i] == entries[..i];
      EntryFlagsFailurePersists(entries, i + 1);
    } else {
      assert entries[..i] == entries;
    }
  }

  /** The flags succeed exactly when every key is a string; there are then two
      per entry, `-a` followed by `key=value`, in entry order; otherwise the
      error is the TypeError of the first non-string key. */
  lemma EntryFlagsExact(entries: seq<(Scalar, Scalar)>)
    ensures EntryFlags(entries).Success? <==> StrKeys(entries)
    ensures EntryFlags(entries).Success? ==>
              && |EntryFlags(entries).value| == 2 * |entries|
              && forall k :: 0 <= k < |entries| ==>
                   EntryFlags(entries).value[2 * k] == "-a" && EntryFlags(entries).value[2 * k + 1] == Flag(entries[k])
    ensures EntryFlags(entries).Failure? ==>
              exists k :: 0 <= k < |entries| && !entries[k].0.Str? && StrKeys(entries[..k])
                          && EntryFlags(entries).error == KeyTypeError(entries[k].0)
  {
    EntryFlagsSucceed(entries);
    if EntryFlags(entries).Success? {
      EntryFlagsLayout(entries);
    } else {
      EntryFlagsFirstBadKey(entries);
    }
  }

  lemma {:induction false} EntryFlagsSucceed(entries: seq<(Scalar, Scalar)>)
    ensures EntryFlags(entries).Success? <==> StrKeys(entries)
  {
    if entries != [] {
      var n := |entries| - 1;
      var init := entries[..n];
      EntryFlagsSucceed(init);
      assert forall k :: 0 <= k < n ==> init[k] == entries[k];
    }
  }

  lemma {:induction false} EntryFlagsLayout(entries: seq<(Scalar, Scalar)>)
    requires StrKeys(entries)
    ensures EntryFlags(entries).Success?
    ensures |EntryFlags(entries).value| == 2 * |entries|
    ensures forall k :: 0 <= k < |entries| ==>
              EntryFlags(entries).value[2 * k] == "-a" && EntryFlags(entries).value[2 * k + 1] == Flag(entries[k])
  {
    EntryFlagsSucceed(entries);
    if entries != [] {
      var n := |entries| - 1;
      var init := entries[..n];
      assert forall k :: 0 <= k < n ==> init[k] == entries[k];
      EntryFlagsLayout(init);
      assert EntryFlags(entries).value == EntryFlags(init).value + ["-a", Flag(entries[n])];
      FlagPairsAppend(EntryFlags(init).value, entries);
    }
  }

  lemma FlagPairsAppend(flags: seq<string>, entries: seq<(Scalar, Scalar)>)
    requires StrKeys(entries) && |entries| >= 1 && |flags| == 2 * (|entries| - 1)
    requires forall k :: 0 <= k < |entries| - 1 ==> flags[2 * k] == "-a" && flags[2 * k + 1] == Flag(entries[k])
    ensures var r := flags + ["-a", Flag(entries[|entries| - 1])];
            forall k :: 0 <= k < |entries| ==> r[2 * k] == "-a" && r[2 * k + 1] == Flag(entries[k])
  {
    var r := flags + ["-a", Flag(entries[|entries| - 1])];
    forall k | 0 <= k < |entries|
      ensures r[2 * k] == "-a" && r[2 * k + 1] == Flag(entries[k])
    {
      if k < |entries| - 1 {
        assert r[2 * k] == flags[2 * k] && r[2 * k + 1] == flags[2 * k + 1];
      }
    }
  }

  lemma {:induction false} EntryFlagsFirstBadKey(entries: seq<(Scalar, Scalar)>)
    requires EntryFlags(entries).Failure?
    ensures exists k :: 0 <= k < |entries| && !entries[k].0.Str? && StrKeys(entries[..k])
                        && EntryFlags(entries).error == KeyTypeError(entries[k].0)
  {
    var n := |entries| - 1;
    var init := entries[..n];
    if EntryFlags(init).Failure? {
      EntryFlagsFirstBadKey(init);
      var k :| 0 <= k < n && !init[k].0.Str? && StrKeys(init[..k]) && EntryFlags(init).error == KeyTypeError(init[k].0);
      assert init[..k] == entries[..k];
    } else {
      EntryFlagsSucceed(init);
      assert entries[..n] == init;
    }
  }

  /** How asciidoctor reads `-a` flags back: pairs of "-a" and `name=value`,
      split at the first "=". */
  function ParseFlags(flags: seq<string>): Option<seq<(string, string)>>
  {
    if flags == [] then Some([])
    else if |flags| < 2 || flags[|flags| - 2] != "-a" || '=' !in flags[|flags| - 1] then None
    else match ParseFlags(flags[..|flags| - 2])
      case None => None
      case Some(earlier) =>
        var f := flags[|flags| - 1];
        var i := IndexOf(f, '=');
        Some(earlier + [(f[..i], f[i + 1..])])
  }

  /** The entries as name and value strings. */
  function Named(entries: seq<(Scalar, Scalar)>): seq<(string, string)>
    requires StrKeys(entries)
  {
    if entries == [] then []
    else Named(entries[..|entries| - 1]) + [(entries[|entries| - 1].0.text, ValueText(entries[|entries| - 1].1))]
  }

  /** With string keys free of "=", asciidoctor reads the flags back as the
      entries' names and values, in order. */
  lemma {:induction false} EntryFlagsRoundTrip(entries: seq<(Scalar, Scalar)>)
    requires StrKeys(entries)
    requires forall k :: 0 <= k < |entries| ==> '=' !in entries[k].0.text
    ensures EntryFlags(entries).Success? && ParseFlags(EntryFlags(entries).value) == Some(Named(entries))
  {
    if entries != [] {
      var n := |entries| - 1;
      var init := entries[..n];
      assert forall k :: 0 <= k < n ==> init[k] == entries[k];
      EntryFlagsRoundTrip(init);
      var flags := EntryFlags(init).value;
      var key, text := entries[n].0.text, ValueText(entries[n].1);
      assert Flag(entries[n]) == key + "=" + text;
      assert EntryFlags(entries).value == flags + ["-a", key + "=" + text];
      ParseFlagsAppend(flags, key, text);
    }
  }

  /** Reading back one more flag appends one more name and value. */
  lemma ParseFlagsAppend(flags: seq<string>, key: string, text: string)
    requires '=' !in key
    requires ParseFlags(flags).Some?
    ensures ParseFlags(flags + ["-a", key + "=" + text]) == Some(ParseFlags(flags).value + [(key, text)])
  {
    var f := key + "=" + text;
    var r := flags + ["-a", f];
    FirstSeparator(key, '=', text);
    assert key + "=" + text == key + ['='] + text;
    assert r[..|r| - 2] == flags;
    assert f[..|key|] == key && f[|key| + 1..] == text;
  }

  /** `{a: 1, b: "x"}` gives `-a a=1 -a b=x`. */
  lemma AttributeScenario()
    ensures AttributeList(Some(Success(DocMapping([(Str("a"), Int(1)), (Str("b"), Str("x"))]))))
            == Success(["-a", "a=1", "-a", "b=x"])
  {
    var entries := [(Str("a"), Int(1)), (Str("b"), Str("x"))];
    assert IntToString(1) == "1";
    assert Flag(entries[0]) == "a=1" && Flag(entries[1]) == "b=x";
    assert entries[..1][..0] == [] && entries[..1] == [(Str("a"), Int(1))];
    var empty: seq<string> := [];
    assert EntryFlags(entries[..1][..0]) == Success(empty);
    assert empty + ["-a", "a=1"] == ["-a", "a=1"];
    assert EntryFlags(entries[..1]) == Success(["-a", "a=1"]);
    assert entries[..|entries| - 1] == entries[..1];
    assert EntryFlags(entries) == Success(["-a", "a=1"] + ["-a", "b=x"]);
    assert ["-a", "a=1"] + ["-a", "b=x"] == ["-a", "a=1", "-a", "b=x"];
  }

  /** The file name of the one default converter script, for "text". */
  const TextConverterName := "asciidoc_text_converter.rb"

  /** The message raised for a format without a default converter, as
      written: the placeholder is never filled in. */
  function MissingDefaultMessageAsWritten(targetFormat: string): string
  {
    "Target format {target_format} does not have default library file."
  }

  /** The message with the format filled in. */
  function MissingDefaultMessage(targetFormat: string): string
  {
    "Target format " + targetFormat + " does not have default library file."
  }

  /** As written, the message is the same whatever the format. */
  lemma MissingDefaultMessageAsWrittenIgnoresFormat(f: string, g: string)
    ensures MissingDefaultMessageAsWritten(f) == MissingDefaultMessageAsWritten(g)
  {
  }

  /** Filled in, the message names the format: it holds the format after its
      fixed prefix, and two formats give the same message only when equal. */
  lemma MissingDefaultMessageNamesFormat(f: string, g: string)
    ensures MissingDefaultMessage(f)[14..14 + |f|] == f
    ensures MissingDefaultMessage(f) == MissingDefaultMessage(g) <==> f == g
  {
    var m := MissingDefaultMessage(f);
    assert m == "Target format " + (f + " does not have default library file.");
    if m == MissingDefaultMessage(g) {
      assert |f| == |g|;
      assert MissingDefaultMessage(g)[14..14 + |g|] == g;
    }
  }

  /** `_get_default_converter_file`: only "text" has a default script, found
      in the package's `ruby_asciidoc` directory; any other format is a
      FileNotFoundError. */
  function DefaultConverterFile(targetFormat: string, rubyDir: FsPath): (r: Result<FsPath, Error>)
    ensures r.Success? <==> targetFormat == "text"
    ensures r.Success? ==>
              && Parent(r.value) == rubyDir
              && |r.value.parts| > 0 && r.value.parts[|r.value.parts| - 1] == TextConverterName
    ensures r.Failure? ==> r.error == FileNotFoundError(MissingDefaultMessage(targetFormat))
  {
    if targetFormat == "text" then Success(JoinPath(rubyDir, [TextConverterName]))
    else Failure(FileNotFoundError(MissingDefaultMessage(targetFormat)))
  }

  const ToolNotFound := "asciidoctor executable not found"

  /** `_get_asciidoctor_path`: what `shutil.which` found, unless it found
      nothing (`None` or an empty string). */
  function AsciidoctorPath(which: Option<string>): (r: Result<string, Error>)
    ensures r.Success? <==> which.GetOr("") != ""
    ensures r.Success? ==> r.value == which.value
    ensures r.Failure? ==> r.error == FileNotFoundError(ToolNotFound)
  {
    if which.GetOr("") == "" then Failure(FileNotFoundError(ToolNotFound)) else Success(which.value)
  }

  /** The fields `__init__` sets. */
  datatype Settings = Settings(targetFormat: string, attributeList: seq<string>, converterFile: FsPath, asciidoctorCmd: string)

  /** `__init__` as a value: the attributes are loaded first, then the
      converter is chosen (a given file wins over the default), then
      asciidoctor is looked up; the first failure is the constructor's
      exception. */
  function Setup(targetFormat: string, attributes: AttributesSource, converterFile: Option<FsPath>,
                 rubyDir: FsPath, which: Option<string>): (r: Result<Settings, Error>)
    ensures r.Success? <==>
              AttributeList(attributes).Success? && (converterFile.Some? || targetFormat == "text") && which.GetOr("") != ""
    ensures AttributeList(attributes).Failure? ==> r == Failure(AttributeList(attributes).error)
    ensures AttributeList(attributes).Success? && converterFile.None? && targetFormat != "text" ==>
              r == Failure(FileNotFoundError(MissingDefaultMessage(targetFormat)))
    ensures AttributeList(attributes).Success? && (converterFile.Some? || targetFormat == "text") && which.GetOr("") == "" ==>
              r == Failure(FileNotFoundError(ToolNotFound))
    ensures r.Success? ==>
              && r.value.targetFormat == targetFormat
              && r.value.attributeList == AttributeList(attributes).value
              && r.value.converterFile == converterFile.GetOr(JoinPath(rubyDir, [TextConverterName]))
              && r.value.asciidoctorCmd == which.value
  {
    match AttributeList(attributes)
    case Failure(e) => Failure(e)
    case Success(attributeList) =>
      var converter := if converterFile.Some? then Success(converterFile.value) else DefaultConverterFile(targetFormat, rubyDir);
      match converter
      case Failure(e) => Failure(e)
      case Success(file) =>
        match AsciidoctorPath(which)
        case Failure(e) => Failure(e)
        case Success(cmd) => Success(Settings(targetFormat, attributeList, file, cmd))
  }

  /** The parts of an asciidoctor argument vector. */
  datatype CommandParts = CommandParts(tool: string, attributes: seq<string>, converter: string,
                                       targetFormat: string, destination: string, source: string)

  /** The vector in its fixed order: the tool, the attribute flags, `-r` with
      the converter, `-b` with the format, `-o` with the destination,
      `--trace`, `--quiet`, then the source. */
  function CommandOf(p: CommandParts): (v: seq<string>)
    ensures |v| == 10 + |p.attributes|
    ensures v[0] == p.tool && v[1..1 + |p.attributes|] == p.attributes && v[|v| - 1] == p.source
  {
    [p.tool] + p.attributes + ["-r", p.converter, "-b", p.targetFormat, "-o", p.destination, "--trace", "--quiet", p.source]
  }

  /** `convert` builds the vector in three appends; they give `CommandOf`. */
  lemma CommandInSteps(p: CommandParts)
    ensures [p.tool] + p.attributes + ["-r", p.converter]
              + ["-b", p.targetFormat, "-o", p.destination, "--trace", "--quiet", p.source] == CommandOf(p)
  {
  }

  /** Reads the parts back from a vector: the last nine entries are the
      fixed tail, what lies between the tool and the tail is the attribute
      list. */
  function ParseCommand(v: seq<string>): Option<CommandParts>
  {
    if |v| < 10 then None
    else
      var t := v[|v| - 9..];
      if t[0] == "-r" && t[2] == "-b" && t[4] == "-o" && t[6] == "--trace" && t[7] == "--quiet"
      then Some(CommandParts(v[0], v[1..|v| - 9], t[1], t[3], t[5], t[8]))
      else None
  }

  /** Every vector reads back as the parts it was built from, and it is ten
      entries longer than its attribute list. */
  lemma CommandRoundTrip(p: CommandParts)
    ensures |CommandOf(p)| == 10 + |p.attributes|
    ensures ParseCommand(CommandOf(p)) == Some(p)
  {
    var v := CommandOf(p);
    assert v[1..|v| - 9] == p.attributes;
    assert v[|v| - 9..] == ["-r", p.converter, "-b", p.targetFormat, "-o", p.destination, "--trace", "--quiet", p.source];
  }

  /** A vector that reads back is the vector built from what it read. */
  lemma ParseCommandInverse(v: seq<string>)
    requires ParseCommand(v).Some?
    ensures CommandOf(ParseCommand(v).value) == v
  {
    var t := v[|v| - 9..];
    assert v == [v[0]] + v[1..|v| - 9] + t;
    assert t == [t[0], t[1], t[2], t[3], t[4], t[5], t[6], t[7], t[8]];
  }

  /** The vector `convert` builds, with the paths as absolute strings. */
  function Command(s: Settings, cwd: seq<string>, source: FsPath, destination: FsPath): seq<string>
  {
    CommandOf(CommandParts(s.asciidoctorCmd, s.attributeList, PathString(Absolute(cwd, s.converterFile)),
                           s.targetFormat, PathString(Absolute(cwd, destination)), PathString(Absolute(cwd, source))))
  }


  /** The directory `convert` creates for an absent destination, as
      written: the destination path itself. */
  function CreatedDirAsWritten(destination: FsPath, destinationExists: bool): (r: Option<FsPath>)
    ensures r.None? <==> destinationExists
    ensures r.Some? ==> r.value == destination
  {
    if destinationExists then None else Some(destination)
  }

  /** The directory `convert` should create for an absent destination: the
      one it is to be written into. */
  function CreatedDir(destination: FsPath, destinationExists: bool): (r: Option<FsPath>)
    ensures r.None? <==> destinationExists
    ensures r.Some? ==> r.value == Parent(destination)
  {
    if destinationExists then None else Some(Parent(destination))
  }

  /** The directories present after `mkdir(parents=True, exist_ok=True)` on
      the absolute path `p`, starting from `dirs`: `p` and its ancestors are
      added. */
  function MakeDirs(dirs: set<seq<string>>, p: seq<string>): set<seq<string>>
  {
    dirs + set k | 0 < k <= |p| :: p[..k]
  }

  /** As written, an absent destination is made a directory, so asciidoctor
      is then asked to write its output file where a directory stands. */
  lemma CreatedDirAsWrittenBlocksOutput(dirs: set<seq<string>>, cwd: seq<string>, destination: FsPath)
    requires destination.parts != []
    ensures CreatedDirAsWritten(destination, false) == Some(destination)
    ensures Absolute(cwd, destination).parts in MakeDirs(dirs, Absolute(cwd, CreatedDirAsWritten(destination, false).value).parts)
  {
    var p := Absolute(cwd, destination).parts;
    assert p[..|p|] == p;
  }

  /** Corrected, the directory the destination goes into exists afterwards
      and the destination itself is not made a directory. */
  lemma CreatedDirLeavesOutputFree(dirs: set<seq<string>>, cwd: seq<string>, destination: FsPath)
    requires destination.parts != []
    requires Absolute(cwd, destination).parts !in dirs
    ensures CreatedDir(destination, false) == Some(Parent(destination))
    ensures var made := MakeDirs(dirs, Absolute(cwd, CreatedDir(destination, false).value).parts);
            && Absolute(cwd, destination).parts !in made
            && (Absolute(cwd, Parent(destination)).parts != [] ==> Absolute(cwd, Parent(destination)).parts in made)
  {
    var p := Absolute(cwd, Parent(destination)).parts;
    assert |p| < |Absolute(cwd, destination).parts|;
    assert p[..|p|] == p;
  }

  /** What one `convert` call does: whether it warns about overwriting, the
      directory it creates, and the vector it runs. */
  datatype Invocation = Invocation(overwriteWarning: bool, createdDir: Option<FsPath>, command: seq<string>)

  /** `convert`, with the directory creation corrected: an existing
      destination is warned about and nothing is created; otherwise the
      destination's directory is created; then asciidoctor runs. */
  function Plan(s: Settings, cwd: seq<string>, source: FsPath, destination: FsPath, destinationExists: bool): (inv: Invocation)
    ensures inv.overwriteWarning <==> destinationExists
    ensures inv.createdDir.None? <==> destinationExists
    ensures !destinationExists ==> inv.createdDir == Some(Parent(destination))
  {
    Invocation(destinationExists, CreatedDir(destination, destinationExists), Command(s, cwd, source, destination))
  }

  /** The vector of a planned call reads back as the converter's settings
      and the absolute destination and source. */
  lemma PlanCommand(s: Settings, cwd: seq<string>, source: FsPath, destination: FsPath, destinationExists: bool)
    ensures ParseCommand(Plan(s, cwd, source, destination, destinationExists).command)
            == Some(CommandParts(s.asciidoctorCmd, s.attributeList, PathString(Absolute(cwd, s.converterFile)),
                                 s.targetFormat, PathString(Absolute(cwd, destination)), PathString(Absolute(cwd, source))))
  {
    CommandRoundTrip(CommandParts(s.asciidoctorCmd, s.attributeList, PathString(Absolute(cwd, s.converterFile)),
                                  s.targetFormat, PathString(Absolute(cwd, destination)), PathString(Absolute(cwd, source))));
  }


  /** A converter whose fields `__init__` has set. */
  class AsciidocConverter {
    const targetFormat: string
    const attributeList: seq<string>
    const converterFile: FsPath
    const asciidoctorCmd: string

    constructor (targetFormat: string, attributeList: seq<string>, converterFile: FsPath, asciidoctorCmd: string)
      ensures Config() == Settings(targetFormat, attributeList, converterFile, asciidoctorCmd)
    {
      this.targetFormat := targetFormat;
      this.attributeList := attributeList;
      this.converterFile := converterFile;
      this.asciidoctorCmd := asciidoctorCmd;
    }

    function Config(): Settings
    {
      Settings(targetFormat, attributeList, converterFile, asciidoctorCmd)
    }

    /** `_get_attribute_list`, building the list with `+=`. */
    static method GetAttributeList(source: AttributesSource) returns (r: Result<seq<string>, Error>)
      ensures r == AttributeList(source)
    {
      var attributeList: seq<string> := [];
      if source.None? {
        return Success(attributeList);
      }
      if source.value.Failure? {
        return Failure(source.value.error);
      }
      var attributes := source.value.value;
      if attributes.DocNull? {
        return Success(attributeList);
      }
      if attributes.DocOther? {
        return Failure(AttributeError("'" + attributes.typeName + "' object has no attribute 'items'"));
      }
      var entries := attributes.entries;
      assert AttributeList(source) == EntryFlags(entries);
      for i := 0 to |entries|
        invariant EntryFlags(entries[..i]) == Success(attributeList)
      {
        var (key, value) := entries[i];
        EntryFlagsStep(entries, i);
        if !key.Str? {
          EntryFlagsFailurePersists(entries, i + 1);
          return Failure(KeyTypeError(key));
        }
        attributeList := attributeList + ["-a", key.text + "=" + ValueText(value)];
      }
      assert entries[..|entries|] == entries;
      return Success(attributeList);
    }

    /** `AsciidocConverter(target_format, attributes_file, converter_file)`:
        the converter, or the exception the constructor raises. */
    static method Create(targetFormat: string, attributes: AttributesSource, converterFile: Option<FsPath>,
                         rubyDir: FsPath, which: Option<string>)
      returns (r: Result<AsciidocConverter, Error>)
      ensures r.Success? <==> Setup(targetFormat, attributes, converterFile, rubyDir, which).Success?
      ensures r.Failure? ==> r.error == Setup(targetFormat, attributes, converterFile, rubyDir, which).error
      ensures r.Success? ==> fresh(r.value) && r.value.Config() == Setup(targetFormat, attributes, converterFile, rubyDir, which).value
    {
      var attributeList := GetAttributeList(attributes);
      if attributeList.Failure? {
        return Failure(attributeList.error);
      }
      var converter: FsPath;
      if converterFile.Some? {
        converter := converterFile.value;
      } else {
        var fallback := DefaultConverterFile(targetFormat, rubyDir);
        if fallback.Failure? {
          return Failure(fallback.error);
        }
        converter := fallback.value;
      }
      var tool := AsciidoctorPath(which);
      if tool.Failure? {
        return Failure(tool.error);
      }
      var c := new AsciidocConverter(targetFormat, attributeList.value, converter, tool.value);
      return Success(c);
    }

    /** `convert(source, destination)`: the branch on the destination, the
        vector built step by step, and the run, whose non-zero exit is a
        CalledProcessError. */
    method Convert(cwd: seq<string>, source: FsPath, destination: FsPath,
                   pathExists: FsPath -> bool, run: seq<string> -> bool)
      returns (inv: Invocation, outcome: Result<(), Error>)
      ensures inv == Plan(Config(), cwd, source, destination, pathExists(destination))
      ensures outcome.Success? <==> run(inv.command)
      ensures outcome.Failure? ==> outcome.error == CalledProcessError(inv.command)
    {
      var overwriteWarning := false;
      var createdDir: Option<FsPath> := None;
      if pathExists(destination) {
        overwriteWarning := true;
      } else {
        createdDir := CreatedDir(destination, false);
      }
      var converterPath := PathString(Absolute(cwd, converterFile));
      var destinationPath := PathString(Absolute(cwd, destination));
      var sourcePath := PathString(Absolute(cwd, source));
      var command := [asciidoctorCmd];
      if |attributeList| > 0 {
        command := command + attributeList;
      }
      assert command == [asciidoctorCmd] + attributeList;
      command := command + ["-r", converterPath];
      command := command + ["-b", targetFormat, "-o", destinationPath, "--trace", "--quiet", sourcePath];
      CommandInSteps(CommandParts(asciidoctorCmd, attributeList, converterPath, targetFormat, destinationPath, sourcePath));
      assert command == Command(Config(), cwd, source, destination);
      inv := Invocation(overwriteWarning, createdDir, command);
      outcome := if run(command) then Success(()) else Failure(CalledProcessError(command));
    }
  }
}
