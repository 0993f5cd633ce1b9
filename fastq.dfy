/**
 * FASTQ preprocessing (src/contrail/FastqPreprocessorAvro.java).
 *
 * A map-only job reads a FASTQ file line by line. Every record takes four
 * lines: a header `@name comment`, the bases, a `+` separator and the
 * qualities. The mapper is a four-state machine (`idx`): it checks and
 * cleans the read name on the header line, keeps the bases from the second
 * line and emits one `SequenceRead(id, dna)` on the fourth. `close` fails
 * when the input stopped in the middle of a record.
 */
module Fastq {
  import opened MapReduce

  /** The Avro record the job writes. */
  datatype SequenceRead = SequenceRead(id: string, dna: string)

  /**
   * Why a call fails: `charAt(0)` on an empty header line, a header line
   * not starting with '@', or `close` with `idx` not back at 0.
   */
  datatype FastqError =
    | EmptyHeader
    | InvalidReadName(line: string)
    | UnfinishedRecord(idx: int)

  // ---------------------------------------------------------------------
  // configure: suffix selection
  // ---------------------------------------------------------------------

  /** `String.contains`: `sub` starts at some position of `s`. */
  predicate Contains(s: string, sub: string)
  {
    sub <= s || (s != [] && Contains(s[1..], sub))
  }

  /** The mate suffix and counter name `configure` would choose for a file. */
  datatype SuffixChoice = SuffixChoice(suffix: Option<string>, counter: string)

  /**
   * With suffixes enabled, files named like `reads_1.fq` get the suffix
   * "_1", files named like `reads_2.fq` get "_2" (the first match wins), and
   * any other file none; the counter name follows the choice.
   */
  function ChooseSuffix(filename: string): (c: SuffixChoice)
    ensures c.suffix == Some("_1") <==> Contains(filename, "_1.")
    ensures c.suffix == Some("_2") <==> !Contains(filename, "_1.") && Contains(filename, "_2.")
    ensures c.suffix == None <==> !Contains(filename, "_1.") && !Contains(filename, "_2.")
    ensures c.counter == "pair_1" <==> c.suffix == Some("_1")
    ensures c.counter == "pair_2" <==> c.suffix == Some("_2")
    ensures c.counter == "pair_unpaired" <==> c.suffix == None
  {
    if Contains(filename, "_1.") then SuffixChoice(Some("_1"), "pair_1")
    else if Contains(filename, "_2.") then SuffixChoice(Some("_2"), "pair_2")
    else SuffixChoice(None, "pair_unpaired")
  }

  // ---------------------------------------------------------------------
  // Read names
  // ---------------------------------------------------------------------

  /** The characters of the class `[:#-.|/]`: ':', '#' through '.', '|' and '/'. */
  predicate IsFunny(ch: char)
  {
    ch == ':' || ('#' <= ch <= '.') || ch == '|' || ch == '/'
  }

  /** `replaceAll("[:#-.|/]", "_")`: every character of the class becomes '_'. */
  function Clean(s: string): string
  {
    if s == [] then []
    else Clean(s[..|s| - 1]) + [if IsFunny(s[|s| - 1]) then '_' else s[|s| - 1]]
  }

  /** Cleaning keeps the length and replaces exactly the characters of the class, each by '_'. */
  lemma {:induction false} CleanChars(s: string)
    ensures |Clean(s)| == |s|
    ensures forall i :: 0 <= i < |s| ==> Clean(s)[i] == (if IsFunny(s[i]) then '_' else s[i])
  {
    if s != [] {
      CleanChars(s[..|s| - 1]);
    }
  }

  /** A cleaned name holds no character of the class, and cleaning it again changes nothing. */
  lemma {:induction false} CleanIsClean(s: string)
    ensures forall i :: 0 <= i < |Clean(s)| ==> !IsFunny(Clean(s)[i])
    ensures Clean(Clean(s)) == Clean(s)
  {
    CleanChars(s);
    CleanChars(Clean(s));
  }

  /** A name with no character of the class is left alone. */
  lemma {:induction false} CleanKeepsCleanNames(s: string)
    requires forall i :: 0 <= i < |s| ==> !IsFunny(s[i])
    ensures Clean(s) == s
  {
    CleanChars(s);
  }

  /** `String.indexOf(ch)`: the first position of `ch`, or -1. */
  function IndexOf(s: string, ch: char): (r: int)
    ensures -1 <= r < |s|
    ensures r >= 0 ==> s[r] == ch
  {
    if s == [] then -1
    else if s[0] == ch then 0
    else
      var k := IndexOf(s[1..], ch);
      if k == -1 then -1 else k + 1
  }

  /** The position found is the first occurrence, and -1 means there is none. */
  lemma {:induction false} IndexOfFirst(s: string, ch: char)
    ensures IndexOf(s, ch) == -1 <==> ch !in s
    ensures IndexOf(s, ch) >= 0 ==> ch !in s[..IndexOf(s, ch)]
  {
    if s != [] && s[0] != ch {
      IndexOfFirst(s[1..], ch);
      var k := IndexOf(s[1..], ch);
      if k != -1 {
        assert s[..k + 1] == [s[0]] + s[1..][..k];
      }
    }
  }

  /** A header line the mapper accepts. */
  predicate IsHeader(line: string)
  {
    |line| > 0 && line[0] == '@'
  }

  /** The read name: the header line from after the '@' up to the first space. */
  function ReadName(line: string): string
    requires IsHeader(line)
  {
    var i := IndexOf(line, ' ');
    if i != -1 then line[1..i] else line[1..]
  }

  /**
   * The read name holds no space, follows the '@' directly, and is ended
   * by a space or by the end of the line.
   */
  lemma {:induction false} ReadNameShape(line: string)
    requires IsHeader(line)
    ensures var name := ReadName(line);
      ' ' !in name && 1 + |name| <= |line| && line[1..1 + |name|] == name &&
      (1 + |name| == |line| || line[1 + |name|] == ' ')
  {
    var i := IndexOf(line, ' ');
    IndexOfFirst(line, ' ');
    if i != -1 {
      assert line[1..i] == line[..i][1..];
    }
  }

  /** The `id` the mapper gives the read of a header line. */
  function HeaderName(line: string, suffix: Option<string>): string
    requires IsHeader(line)
  {
    Clean(ReadName(line)) + (if suffix.Some? then suffix.value else "")
  }

  /**
   * The id is the read name with each character of the class turned into
   * '_', then the suffix; the part before the suffix holds neither a space
   * nor a character of the class.
   */
  lemma {:induction false} HeaderNameShape(line: string, suffix: Option<string>)
    requires IsHeader(line)
    ensures var id := HeaderName(line, suffix); var name := ReadName(line);
      |id| == |name| + (if suffix.Some? then |suffix.value| else 0) &&
      (forall i :: 0 <= i < |name| ==> id[i] != ' ' && !IsFunny(id[i])) &&
      (forall i :: 0 <= i < |name| ==> id[i] == (if IsFunny(name[i]) then '_' else name[i])) &&
      id[|name|..] == (if suffix.Some? then suffix.value else "")
  {
    var name := ReadName(line);
    var id := HeaderName(line, suffix);
    ReadNameShape(line);
    CleanChars(name);
    assert id[|name|..] == (if suffix.Some? then suffix.value else "");
    forall i | 0 <= i < |name|
      ensures id[i] != ' ' && !IsFunny(id[i]) && id[i] == (if IsFunny(name[i]) then '_' else name[i])
    {
      assert id[i] == Clean(name)[i];
      assert name[i] in name;
    }
  }

  // ---------------------------------------------------------------------
  // The four-line grouping
  // ---------------------------------------------------------------------

  /** Every line that opens a record (positions 0, 4, 8, ...) is a header the mapper accepts. */
  predicate HeadersValid(lines: seq<string>)
  {
    forall g :: 0 <= g < |lines| && 4 * g < |lines| ==> IsHeader(lines[4 * g])
  }

  /**
   * The reads collected from `lines`: a read each time a fourth line
   * completes a record, made from that record's header and bases.
   */
  function ReadsOf(lines: seq<string>, suffix: Option<string>): seq<SequenceRead>
    requires HeadersValid(lines)
    decreases |lines|
  {
    if lines == [] then []
    else
      var n := |lines|;
      assert HeadersValid(lines[..n - 1]);
      ReadsOf(lines[..n - 1], suffix) +
        (if n % 4 == 0 then
           assert n - 4 == 4 * (n / 4 - 1);
           [SequenceRead(HeaderName(lines[n - 4], suffix), lines[n - 3])]
         else [])
  }

  /** Read g was made from header line 4g and bases line 4g + 1. */
  ghost predicate RecordsMatch(lines: seq<string>, suffix: Option<string>, rs: seq<SequenceRead>)
  {
    4 * |rs| <= |lines| &&
    forall g {:trigger rs[g]} :: 0 <= g < |rs| ==>
      IsHeader(lines[4 * g]) && rs[g] == SequenceRead(HeaderName(lines[4 * g], suffix), lines[4 * g + 1])
  }

  /** Matching survives reading more lines. */
  lemma {:induction false} RecordsMatchPrefix(lines: seq<string>, k: int, suffix: Option<string>, rs: seq<SequenceRead>)
    requires 0 <= k <= |lines| && RecordsMatch(lines[..k], suffix, rs)
    ensures RecordsMatch(lines, suffix, rs)
  {
    forall g | 0 <= g < |rs|
      ensures IsHeader(lines[4 * g]) && rs[g] == SequenceRead(HeaderName(lines[4 * g], suffix), lines[4 * g + 1])
    {
      var read := rs[g];
      assert lines[..k][4 * g] == lines[4 * g] && lines[..k][4 * g + 1] == lines[4 * g + 1];
    }
  }

  /** A complete record after the matched ones yields the next read. */
  lemma {:induction false} RecordsMatchCollect(lines: seq<string>, suffix: Option<string>, rs: seq<SequenceRead>)
    requires RecordsMatch(lines, suffix, rs) && 4 * |rs| + 4 <= |lines| && IsHeader(lines[4 * |rs|])
    ensures RecordsMatch(lines, suffix, rs + [SequenceRead(HeaderName(lines[4 * |rs|], suffix), lines[4 * |rs| + 1])])
  {
    var rs' := rs + [SequenceRead(HeaderName(lines[4 * |rs|], suffix), lines[4 * |rs| + 1])];
    forall g | 0 <= g < |rs'|
      ensures IsHeader(lines[4 * g]) && rs'[g] == SequenceRead(HeaderName(lines[4 * g], suffix), lines[4 * g + 1])
    {
      if g < |rs| {
        assert rs'[g] == rs[g];
      }
    }
  }

  /** Two read lists matching the same lines, of the same length, are equal. */
  lemma {:induction false} RecordsMatchUnique(lines: seq<string>, suffix: Option<string>, rs: seq<SequenceRead>, rs': seq<SequenceRead>)
    requires RecordsMatch(lines, suffix, rs) && RecordsMatch(lines, suffix, rs') && |rs| == |rs'|
    ensures rs == rs'
  {
  }

  /** With q complete records in the first n - 1 lines, line n closes a record exactly when n is 4q + 4. */
  lemma {:induction false} RecordBoundary(n: int, q: int)
    requires 4 * q <= n - 1 < 4 * q + 4
    ensures n % 4 == 0 <==> n == 4 * q + 4
  {
  }

  /** With q complete records and r lines of the next, the position within the record is n % 4. */
  lemma {:induction false} RecordRemainder(n: int, q: int, r: int)
    requires n == 4 * q + r && 0 <= r < 4
    ensures n % 4 == r
  {
  }

  /**
   * One read per complete four-line record, in file order: read g has the
   * id of header line 4g and the bases of line 4g + 1; a trailing partial
   * record yields nothing.
   */
  lemma {:induction false} ReadsOfRecords(lines: seq<string>, suffix: Option<string>)
    requires HeadersValid(lines)
    ensures 4 * |ReadsOf(lines, suffix)| <= |lines| < 4 * |ReadsOf(lines, suffix)| + 4
    ensures RecordsMatch(lines, suffix, ReadsOf(lines, suffix))
    decreases |lines|
  {
    if lines != [] {
      var n := |lines|;
      var init := lines[..n - 1];
      assert HeadersValid(init);
      var prev := ReadsOf(init, suffix);
      ReadsOfRecords(init, suffix);
      RecordBoundary(n, |prev|);
      RecordsMatchPrefix(lines, n - 1, suffix, prev);
      if n == 4 * |prev| + 4 {
        assert ReadsOf(lines, suffix) == prev + [SequenceRead(HeaderName(lines[4 * |prev|], suffix), lines[4 * |prev| + 1])];
        RecordsMatchCollect(lines, suffix, prev);
      } else {
        assert ReadsOf(lines, suffix) == prev + [];
      }
    }
  }

  // ---------------------------------------------------------------------
  // FastqPreprocessorMapper
  // ---------------------------------------------------------------------

  /** The counter bumped once per read collected. */
  const ReadsCounter: string := "preprocessed_reads"

  /**
   * The mapper's position after `lines`, with `rs` the reads collected so
   * far: `rs` holds one read per complete record, `idx` lines of the
   * record in progress have been read, and once its header (and then its
   * bases) have been read, `name` holds its id and `sequence` its bases.
   */
  ghost predicate InRecord(lines: seq<string>, suffix: Option<string>, idx: int,
                           name: Option<string>, sequence: Option<string>, rs: seq<SequenceRead>)
  {
    0 <= idx < 4 && |lines| == 4 * |rs| + idx && RecordsMatch(lines, suffix, rs) &&
    (idx >= 1 ==> IsHeader(lines[4 * |rs|]) && name == Some(HeaderName(lines[4 * |rs|], suffix))) &&
    (idx >= 2 ==> sequence == Some(lines[4 * |rs| + 1]))
  }

  /** Reading a valid header starts a record whose id is the header's. */
  lemma {:induction false} HeaderStep(lines: seq<string>, suffix: Option<string>, name: Option<string>,
                   sequence: Option<string>, rs: seq<SequenceRead>, line: string)
    requires InRecord(lines, suffix, 0, name, sequence, rs) && IsHeader(line)
    ensures InRecord(lines + [line], suffix, 1, Some(HeaderName(line, suffix)), sequence, rs)
  {
    var all := lines + [line];
    assert all[..|lines|] == lines;
    RecordsMatchPrefix(all, |lines|, suffix, rs);
  }

  /** The second and third lines of a record keep the bases (second line only) and change nothing else. */
  lemma {:induction false} BodyStep(lines: seq<string>, suffix: Option<string>, idx: int, name: Option<string>,
                 sequence: Option<string>, rs: seq<SequenceRead>, line: string)
    requires 1 <= idx <= 2 && InRecord(lines, suffix, idx, name, sequence, rs)
    ensures InRecord(lines + [line], suffix, idx + 1, name, if idx == 1 then Some(line) else sequence, rs)
  {
    var all := lines + [line];
    assert all[..|lines|] == lines;
    RecordsMatchPrefix(all, |lines|, suffix, rs);
    assert all[4 * |rs|] == lines[4 * |rs|];
  }

  /** The fourth line completes the record: its read is collected. */
  lemma {:induction false} QualityStep(lines: seq<string>, suffix: Option<string>, name: Option<string>,
                    sequence: Option<string>, rs: seq<SequenceRead>, line: string)
    requires InRecord(lines, suffix, 3, name, sequence, rs)
    ensures InRecord(lines + [line], suffix, 0, name, sequence, rs + [SequenceRead(name.value, sequence.value)])
  {
    var all := lines + [line];
    assert all[..|lines|] == lines;
    RecordsMatchPrefix(all, |lines|, suffix, rs);
    assert all[4 * |rs|] == lines[4 * |rs|] && all[4 * |rs| + 1] == lines[4 * |rs| + 1];
    RecordsMatchCollect(all, suffix, rs);
  }

  /**
   * The mapper's position determines what it has read: every header seen
   * so far was valid, and the reads collected are exactly ReadsOf.
   */
  lemma {:induction false} InRecordReads(lines: seq<string>, suffix: Option<string>, idx: int,
                      name: Option<string>, sequence: Option<string>, rs: seq<SequenceRead>)
    requires InRecord(lines, suffix, idx, name, sequence, rs)
    ensures HeadersValid(lines) && ReadsOf(lines, suffix) == rs
    ensures idx == |lines| % 4
  {
    forall g | 0 <= g < |lines| && 4 * g < |lines|
      ensures IsHeader(lines[4 * g])
    {
      if g < |rs| {
        assert rs[g].dna == lines[4 * g + 1];
      } else {
        assert g == |rs| && idx >= 1;
      }
    }
    ReadsOfRecords(lines, suffix);
    assert |ReadsOf(lines, suffix)| == |rs|;
    RecordsMatchUnique(lines, suffix, ReadsOf(lines, suffix), rs);
    RecordRemainder(|lines|, |rs|, idx);
  }

  /** A line that should open a record and is not a header sits at a record boundary. */
  lemma {:induction false} InRecordBadHeader(lines: seq<string>, suffix: Option<string>,
                          name: Option<string>, sequence: Option<string>, rs: seq<SequenceRead>, line: string)
    requires InRecord(lines, suffix, 0, name, sequence, rs) && !IsHeader(line)
    ensures HeadersValid(lines) && |lines| == 4 * |rs| && !HeadersValid(lines + [line])
  {
    InRecordReads(lines, suffix, 0, name, sequence, rs);
    var all := lines + [line];
    assert all[4 * |rs|] == line;
  }

  /**
   * `FastqPreprocessorMapper`. `output` holds what was collected and
   * `counters` what was reported; `lines` (ghost) holds the lines consumed
   * without error.
   */
  class FastqPreprocessorMapper {
    var idx: int
    var name: Option<string>
    var sequence: Option<string>
    var filename: string
    var suffix: Option<string>
    var counter: string
    var output: seq<SequenceRead>
    var counters: map<string, nat>
    ghost var lines: seq<string>

    /** The record in progress matches `lines`; every complete record has been collected and counted. */
    ghost predicate Valid()
      reads this
    {
      InRecord(lines, suffix, idx, name, sequence, output) &&
      counter != ReadsCounter &&
      Count(counters, ReadsCounter) == |output|
    }

    /** The field initialisers: `counter` starts as "pair_unknown", everything else empty. */
    constructor ()
      ensures Valid()
      ensures idx == 0 && name == None && sequence == None && suffix == None
      ensures filename == "" && counter == "pair_unknown"
      ensures output == [] && counters == map[] && lines == []
    {
      idx, name, sequence := 0, None, None;
      filename, suffix, counter := "", None, "pair_unknown";
      output, counters := [], map[];
      lines := [];
    }

    /**
     * `configure`: records the input file name and, when `PREPROCESS_SUFFIX`
     * is 1, chooses the mate suffix and counter from it. It runs before any
     * line is read.
     */
    method Configure(inputFile: string, preprocessSuffix: int)
      requires Valid() && lines == []
      modifies this
      ensures Valid()
      ensures filename == inputFile
      ensures preprocessSuffix == 1 ==>
        suffix == (if ChooseSuffix(inputFile).suffix.Some? then ChooseSuffix(inputFile).suffix else old(suffix)) &&
        counter == ChooseSuffix(inputFile).counter
      ensures preprocessSuffix != 1 ==> suffix == old(suffix) && counter == old(counter)
      ensures idx == old(idx) && name == old(name) && sequence == old(sequence)
      ensures output == old(output) && counters == old(counters) && lines == old(lines)
    {
      filename := inputFile;
      if preprocessSuffix == 1 {
        if Contains(inputFile, "_1.") {
          suffix, counter := Some("_1"), "pair_1";
        } else if Contains(inputFile, "_2.") {
          suffix, counter := Some("_2"), "pair_2";
        } else {
          counter := "pair_unpaired";
        }
      }
    }

    /**
     * `map` for one line: the line's place in its four-line record decides
     * what is done with it, and the position moves on by one, wrapping
     * after the fourth line. A bad header fails and leaves the position
     * where it was.
     */
    method Map(line: string) returns (r: Result<(), FastqError>)
      requires Valid()
      modifies this
      ensures Valid()
      ensures r.Ok? <==> old(idx) != 0 || IsHeader(line)
      ensures r.Ok? ==> lines == old(lines) + [line] && idx == (if old(idx) == 3 then 0 else old(idx) + 1)
      ensures r.Err? ==>
        lines == old(lines) && idx == old(idx) && output == old(output) &&
        r.error == (if line == [] then EmptyHeader else InvalidReadName(line))
      ensures r.Ok? && old(idx) == 3 ==>
        output == old(output) + [SequenceRead(old(name).value, old(sequence).value)] &&
        counters == Incr(Incr(old(counters), ReadsCounter), counter)
      ensures !(r.Ok? && old(idx) == 3) ==> output == old(output) && counters == old(counters)
      ensures filename == old(filename) && suffix == old(suffix) && counter == old(counter)
    {
      if idx == 0 {
        r := MapHeader(line);
      } else if idx == 1 || idx == 2 {
        MapBody(line);
        r := Ok(());
      } else {
        MapQuality(line);
        r := Ok(());
      }
    }

    /**
     * The first line of a record: `name` takes the raw line; a line that is
     * empty or does not start with '@' fails; otherwise `name` becomes the
     * read name with each character of the class turned into '_', followed
     * by the suffix.
     */
    method MapHeader(line: string) returns (r: Result<(), FastqError>)
      requires Valid() && idx == 0
      modifies this
      ensures Valid()
      ensures r.Ok? <==> IsHeader(line)
      ensures r.Ok? ==> lines == old(lines) + [line] && idx == 1 && name == Some(HeaderName(line, suffix))
      ensures r.Err? ==>
        lines == old(lines) && idx == 0 && name == Some(line) &&
        r.error == (if line == [] then EmptyHeader else InvalidReadName(line))
      ensures sequence == old(sequence) && output == old(output) && counters == old(counters)
      ensures filename == old(filename) && suffix == old(suffix) && counter == old(counter)
    {
      name := Some(line);
      if |line| == 0 {
        return Err(EmptyHeader);
      }
      if line[0] != '@' {
        return Err(InvalidReadName(line));
      }
      HeaderStep(lines, suffix, name, sequence, output, line);
      name := Some(HeaderName(line, suffix));
      lines := lines + [line];
      idx := 1;
      r := Ok(());
    }

    /** The second line of a record is kept as its bases; the third is skipped. */
    method MapBody(line: string)
      requires Valid() && (idx == 1 || idx == 2)
      modifies this
      ensures Valid()
      ensures lines == old(lines) + [line] && idx == old(idx) + 1
      ensures sequence == if old(idx) == 1 then Some(line) else old(sequence)
      ensures name == old(name) && output == old(output) && counters == old(counters)
      ensures filename == old(filename) && suffix == old(suffix) && counter == old(counter)
    {
      BodyStep(lines, suffix, idx, name, sequence, output, line);
      if idx == 1 {
        sequence := Some(line);
      }
      lines := lines + [line];
      idx := idx + 1;
    }

    /**
     * The fourth line completes the record: its read is collected, and the
     * reads counter and the mate counter are each bumped once.
     */
    method MapQuality(line: string)
      requires Valid() && idx == 3
      modifies this
      ensures Valid()
      ensures lines == old(lines) + [line] && idx == 0
      ensures output == old(output) + [SequenceRead(old(name).value, old(sequence).value)]
      ensures counters == Incr(Incr(old(counters), ReadsCounter), counter)
      ensures name == old(name) && sequence == old(sequence)
      ensures filename == old(filename) && suffix == old(suffix) && counter == old(counter)
    {
      QualityStep(lines, suffix, name, sequence, output, line);
      var read := SequenceRead(name.value, sequence.value);
      output := output + [read];
      counters := Incr(counters, ReadsCounter);
      IncrOther(counters, counter, ReadsCounter);
      counters := Incr(counters, counter);
      lines := lines + [line];
      idx := 0;
    }

    /** `close`: fails exactly when the lines read so far end in the middle of a record. */
    method Close() returns (r: Result<(), FastqError>)
      requires Valid()
      ensures r.Ok? <==> |lines| % 4 == 0
      ensures r.Err? ==> r.error == UnfinishedRecord(|lines| % 4)
    {
      InRecordReads(lines, suffix, idx, name, sequence, output);
      if idx != 0 {
        return Err(UnfinishedRecord(idx));
      }
      r := Ok(());
    }
  }

  /**
   * The whole job over one file: the reads collected, or the error of the
   * first bad header, or the error of `close` on a truncated file.
   */
  method PreprocessFile(inputFile: string, preprocessSuffix: int, lines: seq<string>)
    returns (r: Result<seq<SequenceRead>, FastqError>)
    ensures r.Ok? <==> HeadersValid(lines) && |lines| % 4 == 0
    ensures r.Ok? ==>
      r.value == ReadsOf(lines, if preprocessSuffix == 1 then ChooseSuffix(inputFile).suffix else None)
    ensures r.Err? && HeadersValid(lines) ==> r.error == UnfinishedRecord(|lines| % 4)
    ensures r.Err? && !HeadersValid(lines) ==>
      exists g :: 0 <= g && 4 * g < |lines| && !IsHeader(lines[4 * g]) && HeadersValid(lines[..4 * g]) &&
        r.error == (if lines[4 * g] == [] then EmptyHeader else InvalidReadName(lines[4 * g]))
  {
    var mapper := new FastqPreprocessorMapper();
    mapper.Configure(inputFile, preprocessSuffix);
    var i := 0;
    while i < |lines|
      invariant 0 <= i <= |lines|
      invariant mapper.Valid() && mapper.lines == lines[..i]
      invariant mapper.suffix == if preprocessSuffix == 1 then ChooseSuffix(inputFile).suffix else None
    {
      ghost var name, sequence, output := mapper.name, mapper.sequence, mapper.output;
      var step := mapper.Map(lines[i]);
      if step.Err? {
        InRecordBadHeader(lines[..i], mapper.suffix, name, sequence, output, lines[i]);
        ghost var g := |output|;
        assert 4 * g == i && !IsHeader(lines[4 * g]) && HeadersValid(lines[..4 * g]);
        return Err(step.error);
      }
      assert lines[..i + 1] == lines[..i] + [lines[i]];
      i := i + 1;
    }
    assert lines[..i] == lines;
    InRecordReads(mapper.lines, mapper.suffix, mapper.idx, mapper.name, mapper.sequence, mapper.output);
    var closing := mapper.Close();
    if closing.Err? {
      return Err(closing.error);
    }
    r := Ok(mapper.output);
  }

  // ---------------------------------------------------------------------
  // Round trip
  // ---------------------------------------------------------------------

  /** A read id the mapper reproduces unchanged: no space and no character of the class. */
  predicate PlainId(id: string)
  {
    forall i :: 0 <= i < |id| ==> id[i] != ' ' && !IsFunny(id[i])
  }

  /** The four FASTQ lines of a read, with the given quality line. */
  function FormatRead(read: SequenceRead, quality: string): (lines: seq<string>)
    ensures |lines| == 4 && IsHeader(lines[0])
  {
    ["@" + read.id, read.dna, "+", quality]
  }

  function FormatReads(rds: seq<SequenceRead>, quality: string): (lines: seq<string>)
    ensures |lines| == 4 * |rds|
    ensures forall g :: 0 <= g < |rds| ==>
      lines[4 * g] == "@" + rds[g].id && lines[4 * g + 1] == rds[g].dna
  {
    if rds == [] then []
    else
      var init := FormatReads(rds[..|rds| - 1], quality);
      var r := init + FormatRead(rds[|rds| - 1], quality);
      assert forall g :: 0 <= g < |rds| - 1 ==> r[4 * g] == init[4 * g] && r[4 * g + 1] == init[4 * g + 1];
      r
  }

  /** The header of a plain id reads back as that id. */
  lemma {:induction false} HeaderOfPlainId(id: string)
    requires PlainId(id)
    ensures IsHeader("@" + id) && HeaderName("@" + id, None) == id
  {
    var line := "@" + id;
    var name := ReadName(line);
    assert line[1..] == id;
    assert ' ' !in line by {
      forall i | 0 <= i < |line| ensures line[i] != ' ' {
        if i > 0 {
          assert line[i] == id[i - 1];
        }
      }
    }
    IndexOfFirst(line, ' ');
    assert name == id;
    CleanKeepsCleanNames(id);
  }

  /**
   * Writing reads with plain ids as FASTQ and preprocessing them without a
   * suffix gives the same reads back.
   */
  lemma {:induction false} FormatThenPreprocess(rds: seq<SequenceRead>, quality: string)
    requires forall g :: 0 <= g < |rds| ==> PlainId(rds[g].id)
    ensures HeadersValid(FormatReads(rds, quality))
    ensures ReadsOf(FormatReads(rds, quality), None) == rds
  {
    var lines := FormatReads(rds, quality);
    ReadsOfRecords(lines, None);
    var back := ReadsOf(lines, None);
    forall g | 0 <= g < |rds|
      ensures back[g] == rds[g]
    {
      HeaderOfPlainId(rds[g].id);
    }
  }
}
