/** The input classification of process_command_line: the input file's extension picks
    bam or fasta input, and region filtering is refused for anything but bam input. */
module InputTypes {
  import opened Wrappers

  datatype InputType = Bam | Fasta

  /** Index of the last occurrence of c in s, as std::string::rfind finds it. */
  function LastIndex(s: string, c: char): (r: Option<nat>)
    ensures r.Some? ==> r.value < |s| && s[r.value] == c &&
                        forall k :: r.value < k < |s| ==> s[k] != c
    ensures r.None? ==> forall k :: 0 <= k < |s| ==> s[k] != c
  {
    if |s| == 0 then None
    else if s[|s| - 1] == c then Some(|s| - 1)
    else LastIndex(s[..|s| - 1], c)
  }

  /** The last path element: everything after the last '/'. A path ending in '/' has an
      empty last element here, which has no extension, as in boost::filesystem. */
  function FileName(path: string): (name: string)
    ensures forall k :: 0 <= k < |name| ==> name[k] != '/'
  {
    match LastIndex(path, '/')
    case None => path
    case Some(i) => path[i + 1..]
  }

  /** boost::filesystem::extension: the last element from its last '.' on; empty when
      the element has no '.', or is "." or "..". */
  function Extension(path: string): (e: string)
    ensures e == "" || (e[0] == '.' && EndsWith(FileName(path), e))
  {
    var name := FileName(path);
    if name == "." || name == ".." then ""
    else
      match LastIndex(name, '.')
      case None => ""
      case Some(i) => name[i..]
  }

  predicate EndsWith(s: string, suffix: string) {
    |suffix| <= |s| && s[|s| - |suffix|..] == suffix
  }

  /** The input type named by the extension, or exit status 1. */
  function ClassifyInput(path: string): (r: Result<InputType, nat>)
    ensures r == Success(Bam) <==> Extension(path) == ".bam"
    ensures r == Success(Fasta) <==> Extension(path) == ".fasta"
    ensures r.Failure? ==> r.error == 1
  {
    var extension := Extension(path);
    if extension == ".bam" then Success(Bam)
    else if extension == ".fasta" then Success(Fasta)
    else Failure(1)
  }

  /** For a suffix that is a '.' followed by characters that are neither '.' nor '/', a
      path has that extension exactly when its last element ends with the suffix. */
  lemma {:induction false} ExtensionIsSuffix(path: string, suffix: string)
    requires |suffix| >= 2 && suffix[0] == '.'
    requires forall k :: 1 <= k < |suffix| ==> suffix[k] != '.' && suffix[k] != '/'
    ensures Extension(path) == suffix <==> EndsWith(FileName(path), suffix)
  {
    var name := FileName(path);
    if EndsWith(name, suffix) {
      var i := |name| - |suffix|;
      assert name[i] == '.';
      assert forall k :: i < k < |name| ==> name[k] == suffix[k - i];
      LastIndexIs(name, '.', i);
      assert name != "." && name != ".." by {
        assert name[|name| - 1] == suffix[|suffix| - 1];
      }
    }
    if Extension(path) == suffix {
      assert name != "." && name != "..";
      var i := LastIndex(name, '.').value;
      assert name[i..] == suffix;
    }
  }

  /** The last occurrence is found where it is. */
  lemma {:induction false} LastIndexIs(s: string, c: char, i: nat)
    requires i < |s| && s[i] == c && forall k :: i < k < |s| ==> s[k] != c
    ensures LastIndex(s, c) == Some(i)
    decreases |s|
  {
    if i < |s| - 1 {
      LastIndexIs(s[..|s| - 1], c, i);
    }
  }

  /** A last element ending in ".bam" is bam input, one ending in ".fasta" is fasta
      input, and any other path is refused with exit status 1. */
  lemma {:induction false} ClassifyByName(path: string)
    ensures ClassifyInput(path) == Success(Bam) <==> EndsWith(FileName(path), ".bam")
    ensures ClassifyInput(path) == Success(Fasta) <==> EndsWith(FileName(path), ".fasta")
    ensures ClassifyInput(path).Failure? <==>
            !EndsWith(FileName(path), ".bam") && !EndsWith(FileName(path), ".fasta")
    ensures ClassifyInput(path).Failure? ==> ClassifyInput(path).error == 1
  {
    ExtensionIsSuffix(path, ".bam");
    ExtensionIsSuffix(path, ".fasta");
  }

  /** A string without c has no last occurrence of it. */
  lemma {:induction false} LastIndexAbsent(s: string, c: char)
    requires forall k :: 0 <= k < |s| ==> s[k] != c
    ensures LastIndex(s, c) == None
    decreases |s|
  {
    if |s| > 0 {
      LastIndexAbsent(s[..|s| - 1], c);
    }
  }

  /** A bare file name ending in ".bam" is bam input. */
  lemma ClassifyBamExample()
    ensures ClassifyInput("reads.bam") == Success(Bam)
  {
    var p := "reads.bam";
    LastIndexAbsent(p, '/');
    assert EndsWith(p, ".bam") by {
      assert p[|p| - 4..] == ".bam";
    }
    ClassifyByName(p);
  }

  /** Only the last path element counts: a fasta file inside a directory is fasta input. */
  lemma ClassifyFastaExample()
    ensures ClassifyInput("data/genome.fasta") == Success(Fasta)
  {
    var p := "data/genome.fasta";
    LastIndexIs(p, '/', 4);
    var name := p[5..];
    assert FileName(p) == name;
    assert EndsWith(name, ".fasta") by {
      assert name[|name| - 6..] == ".fasta";
    }
    ClassifyByName(p);
  }

  /** A compressed bam is not bam input: only the last extension counts. */
  lemma ClassifyCompressedExample()
    ensures ClassifyInput("reads.bam.gz") == Failure(1)
  {
    var p := "reads.bam.gz";
    LastIndexAbsent(p, '/');
    LastIndexIs(p, '.', 9);
    assert Extension(p) == p[9..];
  }

  /** The option keys registered on the command line, under their long names. */
  const RegisteredKeys: set<string> :=
    {"background", "help", "output", "region", "unmapped-only", "verbose", "motif", "fasta_or_bam"}

  /** The region check as written: it looks up the key "region_file_path". */
  function CheckRegionAsWritten(inputType: InputType, given: set<string>): (r: Result<InputType, nat>)
    ensures r.Success? ==> r.value == inputType
    ensures r.Failure? ==> r.error == 1 && "region_file_path" in given && inputType.Fasta?
  {
    if "region_file_path" in given && inputType != Bam then Failure(1) else Success(inputType)
  }

  /** Only registered keys can be stored, so the check as written never refuses an input. */
  lemma {:induction false} RegionCheckNeverFires(inputType: InputType, given: set<string>)
    requires given <= RegisteredKeys
    ensures CheckRegionAsWritten(inputType, given) == Success(inputType)
  {
    assert "region_file_path" !in RegisteredKeys;
  }

  /** The region check keyed on the registered name "region". */
  function CheckRegion(inputType: InputType, given: set<string>): (r: Result<InputType, nat>)
    ensures r.Failure? <==> "region" in given && inputType != Bam
    ensures r.Success? ==> r.value == inputType
    ensures r.Failure? ==> r.error == 1
  {
    if "region" in given && inputType != Bam then Failure(1) else Success(inputType)
  }

  /** Classification followed by the region check. */
  function InputOf(path: string, given: set<string>): Result<InputType, nat> {
    match ClassifyInput(path)
    case Failure(status) => Failure(status)
    case Success(inputType) => CheckRegion(inputType, given)
  }

  /** Region filtering is accepted for bam input and refused for fasta input. */
  lemma {:induction false} RegionNeedsBam(path: string, given: set<string>)
    requires "region" in given
    ensures InputOf(path, given).Success? <==> EndsWith(FileName(path), ".bam")
  {
    ClassifyByName(path);
  }

  /** Fasta input with a region file: the check as written lets it through, the
      corrected check refuses it with exit status 1. */
  lemma RegionCheckCounterexample()
    ensures {"region"} <= RegisteredKeys
    ensures CheckRegionAsWritten(Fasta, {"region"}) == Success(Fasta)
    ensures CheckRegion(Fasta, {"region"}) == Failure(1)
  {
  }
}
