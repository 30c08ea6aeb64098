/**
 * The ranging side of libMeasurement.py: the FTM request file written by
 * prepare_config_file, the accept-and-calibrate loop of get_distance_once
 * and the per-MAC median of get_distance_median.
 *
 * Running `iw` and matching its output with the regular expression are not
 * modelled: each round's output arrives as the sequence of parsed matches.
 */
module Measurement {
  import opened Wrappers
  import opened Stats
  import opened Dicts
  import opened Text
  import opened Seqs

  /** One match of the result regex, its numeric groups read with int(). */
  datatype Match = Match(mac: string, status: int, rtt: int, rttVar: int, rawDistance: int,
                         rawDistanceVar: int, rssi: int)

  /** A kept measurement: (mac, distance, rtt, raw_distance). */
  datatype Record = Record(mac: string, distance: real, rtt: int, rawDistance: int)

  /** What get_distance_median stores per MAC: the record without its MAC, `each[1:]`. */
  datatype Sample = Sample(distance: real, rtt: int, rawDistance: int)

  /** The default calibration: slope 1, offset 0. */
  const DefaultCali: (real, real) := (1.0, 0.0)

  /** A match is kept when its status is 0 and its raw distance is at least -1000 cm. */
  predicate Accepted(m: Match) {
    m.status == 0 && m.rawDistance >= -1000
  }

  /** The calibrated distance cali[0] * raw + cali[1]. */
  function Calibrate(cali: (real, real), raw: int): real {
    cali.0 * raw as real + cali.1
  }

  function RecordOf(cali: (real, real), m: Match): Record {
    Record(m.mac, Calibrate(cali, m.rawDistance), m.rtt, m.rawDistance)
  }

  /** The records get_distance_once returns for one round's matches. */
  function KeptRecords(cali: (real, real), matches: seq<Match>): (r: seq<Record>)
    ensures |r| <= |matches|
  {
    if matches == [] then []
    else
      var rest := KeptRecords(cali, matches[..|matches| - 1]);
      var m := matches[|matches| - 1];
      if Accepted(m) then rest + [RecordOf(cali, m)] else rest
  }

  /** The records kept from the matches of several rounds, in round order. */
  function RoundsRecords(cali: (real, real), roundMatches: nat -> seq<Match>, n: nat): seq<Record> {
    if n == 0 then [] else RoundsRecords(cali, roundMatches, n - 1) + KeptRecords(cali, roundMatches(n - 1))
  }

  function SampleOf(r: Record): Sample {
    Sample(r.distance, r.rtt, r.rawDistance)
  }

  /** The dict of lists get_distance_median builds: each MAC's samples, keyed in order of first appearance. */
  function Group(records: seq<Record>): Dict<string, seq<Sample>> {
    if records == [] then []
    else
      var rest := Group(records[..|records| - 1]);
      var r := records[|records| - 1];
      Put(rest, r.mac, Get(rest, r.mac).GetOr([]) + [SampleOf(r)])
  }

  function Distances(samples: seq<Sample>): (r: seq<real>)
    ensures |r| == |samples|
  {
    seq(|samples|, i requires 0 <= i < |samples| => samples[i].distance)
  }

  /** The samples of one MAC, in record order. */
  function SamplesFor(records: seq<Record>, mac: string): seq<Sample> {
    if records == [] then []
    else
      var rest := SamplesFor(records[..|records| - 1], mac);
      var r := records[|records| - 1];
      if r.mac == mac then rest + [SampleOf(r)] else rest
  }

  /** The per-MAC medians of the grouped samples; a MAC with no samples would have no median. */
  function MedianDict(groups: Dict<string, seq<Sample>>): Result<Dict<string, real>, string> {
    if groups == [] then Ok([])
    else
      match MedianDict(groups[..|groups| - 1])
      case Err(mac) => Err(mac)
      case Ok(medians) =>
        var (mac, samples) := groups[|groups| - 1];
        if samples == [] then Err(mac) else Ok(Put(medians, mac, Median(Distances(samples))))
  }

  /** The four FTM parameters of one target. */
  datatype FtmParams = FtmParams(bw: nat, cf: nat, retries: nat, spb: nat)

  /** The argument of prepare_config_file: a dict of targets, or anything else. */
  datatype Targets = NotADict | Targets(entries: Dict<string, FtmParams>)

  /** The fields of one line of the request file. */
  function ConfigFields(bssid: string, p: FtmParams): seq<string> {
    [bssid, "bw=" + NatToString(p.bw), "cf=" + NatToString(p.cf), "retries=" + NatToString(p.retries), "asap",
     "spb=" + NatToString(p.spb)]
  }

  /** One line of the request file without its newline: `<bssid> bw=<bw> cf=<cf> retries=<retries> asap spb=<spb>`. */
  function ConfigBody(bssid: string, p: FtmParams): string {
    Join(ConfigFields(bssid, p), ' ')
  }

  /** The request file for the targets, one line per target in dict order. */
  function ConfigText(entries: Dict<string, FtmParams>): string {
    if entries == [] then ""
    else
      var (bssid, p) := entries[|entries| - 1];
      ConfigText(entries[..|entries| - 1]) + ConfigBody(bssid, p) + "\n"
  }

  /** Reads a field `name=value` whose value is decimal. */
  function ParseField(f: string, name: string): Option<nat> {
    if |name| <= |f| && f[..|name|] == name then ParseNat(f[|name|..]) else None
  }

  /** Reads back one line of the request file, without its newline. */
  function ParseConfigBody(line: string): Option<(string, FtmParams)> {
    var fs := Split(line, ' ');
    if |fs| != 6 || fs[4] != "asap" then None
    else
      match (ParseField(fs[1], "bw="), ParseField(fs[2], "cf="), ParseField(fs[3], "retries="), ParseField(fs[5], "spb="))
      case (Some(bw), Some(cf), Some(retries), Some(spb)) => Some((fs[0], FtmParams(bw, cf, retries, spb)))
      case _ => None
  }

  function ParseConfigLines(lines: seq<string>): Option<Dict<string, FtmParams>> {
    if lines == [] then Some([])
    else
      match (ParseConfigLines(lines[..|lines| - 1]), ParseConfigBody(lines[|lines| - 1]))
      case (Some(entries), Some(entry)) => Some(entries + [entry])
      case _ => None
  }

  /** Reads back a request file: newline-terminated lines, each one target. */
  function ParseConfigText(text: string): Option<Dict<string, FtmParams>> {
    var lines := Split(text, '\n');
    if lines[|lines| - 1] != "" then None else ParseConfigLines(lines[..|lines| - 1])
  }

  /** A BSSID the request format can carry: no blank and no newline. */
  predicate PlainBssid(bssid: string) {
    ' ' !in bssid && '\n' !in bssid
  }

  lemma NotInDigits(n: nat, c: char)
    requires !IsDigit(c)
    ensures c !in NatToString(n)
  {
    var s := NatToString(n);
    assert forall k :: 0 <= k < |s| ==> s[k] != c;
  }

  lemma FieldsAvoid(bssid: string, p: FtmParams, c: char)
    requires c == ' ' || c == '\n'
    requires c !in bssid
    ensures forall i :: 0 <= i < |ConfigFields(bssid, p)| ==> c !in ConfigFields(bssid, p)[i]
  {
    NotInDigits(p.bw, c);
    NotInDigits(p.cf, c);
    NotInDigits(p.retries, c);
    NotInDigits(p.spb, c);
  }

  lemma FieldRoundTrip(name: string, n: nat)
    ensures ParseField(name + NatToString(n), name) == Some(n)
  {
    var f := name + NatToString(n);
    assert f[..|name|] == name;
    assert f[|name|..] == NatToString(n);
    ParseNatToString(n);
  }

  /** A line written for a target reads back as that target. */
  lemma ConfigBodyRoundTrip(bssid: string, p: FtmParams)
    requires PlainBssid(bssid)
    ensures ParseConfigBody(ConfigBody(bssid, p)) == Some((bssid, p))
  {
    FieldsAvoid(bssid, p, ' ');
    SplitJoin(ConfigFields(bssid, p), ' ');
    FieldRoundTrip("bw=", p.bw);
    FieldRoundTrip("cf=", p.cf);
    FieldRoundTrip("retries=", p.retries);
    FieldRoundTrip("spb=", p.spb);
  }

  function Bodies(entries: Dict<string, FtmParams>): (r: seq<string>)
    ensures |r| == |entries|
  {
    seq(|entries|, i requires 0 <= i < |entries| => ConfigBody(entries[i].0, entries[i].1))
  }

  lemma BodiesSnoc(entries: Dict<string, FtmParams>)
    requires |entries| > 0
    ensures var e := entries[|entries| - 1];
      Bodies(entries) == Bodies(entries[..|entries| - 1]) + [ConfigBody(e.0, e.1)]
  {
  }

  lemma {:induction false} ConfigTextJoin(entries: Dict<string, FtmParams>)
    ensures ConfigText(entries) == Join(Bodies(entries) + [""], '\n')
  {
    if entries != [] {
      var e0 := entries[..|entries| - 1];
      var (bssid, p) := entries[|entries| - 1];
      var b0 := Bodies(e0);
      var body := ConfigBody(bssid, p);
      ConfigTextJoin(e0);
      BodiesSnoc(entries);
      JoinTerminated(b0, body, '\n');
    }
  }

  lemma {:induction false} ConfigLinesRoundTrip(entries: Dict<string, FtmParams>)
    requires forall i :: 0 <= i < |entries| ==> PlainBssid(entries[i].0)
    ensures ParseConfigLines(Bodies(entries)) == Some(entries)
  {
    if entries != [] {
      var e0 := entries[..|entries| - 1];
      var entry := entries[|entries| - 1];
      BodiesSnoc(entries);
      ConfigLinesRoundTrip(e0);
      ConfigBodyRoundTrip(entry.0, entry.1);
      SplitLast(entries);
    }
  }

  /**
   * The request file written for a dict of targets reads back as the same
   * dict, in the same order, when no BSSID holds a blank or a newline.
   */
  lemma ConfigTextRoundTrip(entries: Dict<string, FtmParams>)
    requires forall i :: 0 <= i < |entries| ==> PlainBssid(entries[i].0)
    ensures ParseConfigText(ConfigText(entries)) == Some(entries)
  {
    var text := ConfigText(entries);
    var lines := Bodies(entries) + [""];
    ConfigTextJoin(entries);
    LinesAvoidNewline(entries);
    SplitJoin(lines, '\n');
    assert Split(text, '\n') == lines;
    assert lines[..|lines| - 1] == Bodies(entries);
    ConfigLinesRoundTrip(entries);
  }

  lemma LinesAvoidNewline(entries: Dict<string, FtmParams>)
    requires forall i :: 0 <= i < |entries| ==> PlainBssid(entries[i].0)
    ensures forall i :: 0 <= i < |Bodies(entries) + [""]| ==> '\n' !in (Bodies(entries) + [""])[i]
  {
    var lines := Bodies(entries) + [""];
    BodiesAvoidNewline(entries);
    forall i | 0 <= i < |lines|
      ensures '\n' !in lines[i]
    {
      if i < |entries| {
        assert lines[i] == Bodies(entries)[i];
      }
    }
  }

  lemma BodiesAvoidNewline(entries: Dict<string, FtmParams>)
    requires forall i :: 0 <= i < |entries| ==> PlainBssid(entries[i].0)
    ensures forall i :: 0 <= i < |entries| ==> '\n' !in Bodies(entries)[i]
  {
    forall i | 0 <= i < |entries|
      ensures '\n' !in Bodies(entries)[i]
    {
      FieldsAvoid(entries[i].0, entries[i].1, '\n');
      JoinAvoids(ConfigFields(entries[i].0, entries[i].1), ' ', '\n');
    }
  }

  lemma KeptRecordsStep(cali: (real, real), matches: seq<Match>, j: nat)
    requires j < |matches|
    ensures KeptRecords(cali, matches[..j + 1])
         == KeptRecords(cali, matches[..j]) + if Accepted(matches[j]) then [RecordOf(cali, matches[j])] else []
  {
    PrefixSnoc(matches, j);
  }

  /** Concatenating rounds concatenates what each keeps. */
  lemma {:induction false} KeptRecordsAppend(cali: (real, real), a: seq<Match>, b: seq<Match>)
    ensures KeptRecords(cali, a + b) == KeptRecords(cali, a) + KeptRecords(cali, b)
  {
    if b != [] {
      var b0 := b[..|b| - 1];
      var m := b[|b| - 1];
      DropLast(a, b);
      KeptRecordsAppend(cali, a, b0);
      if Accepted(m) {
        calc {
          KeptRecords(cali, a + b);
          KeptRecords(cali, a + b0) + [RecordOf(cali, m)];
          (KeptRecords(cali, a) + KeptRecords(cali, b0)) + [RecordOf(cali, m)];
          KeptRecords(cali, a) + (KeptRecords(cali, b0) + [RecordOf(cali, m)]);
          KeptRecords(cali, a) + KeptRecords(cali, b);
        }
      }
    } else {
      assert a + b == a;
    }
  }

  /** A record is kept exactly when it is the calibration of an accepted match. */
  lemma {:induction false} KeptRecordsMembership(cali: (real, real), matches: seq<Match>, r: Record)
    ensures r in KeptRecords(cali, matches) <==> exists m :: m in matches && Accepted(m) && RecordOf(cali, m) == r
  {
    if matches != [] {
      var ms := matches[..|matches| - 1];
      var m := matches[|matches| - 1];
      KeptRecordsMembership(cali, ms, r);
      assert matches == ms + [m];
      if r in KeptRecords(cali, matches) && r !in KeptRecords(cali, ms) {
        assert Accepted(m) && RecordOf(cali, m) == r;
      }
    }
  }

  /** With the default calibration every kept distance is the raw distance. */
  lemma DefaultCaliKeepsRaw(matches: seq<Match>)
    ensures forall r :: r in KeptRecords(DefaultCali, matches) ==> r.distance == r.rawDistance as real
  {
    forall r | r in KeptRecords(DefaultCali, matches)
      ensures r.distance == r.rawDistance as real
    {
      KeptRecordsMembership(DefaultCali, matches, r);
    }
  }

  function Macs(records: seq<Record>): (r: seq<string>)
    ensures |r| == |records|
  {
    seq(|records|, i requires 0 <= i < |records| => records[i].mac)
  }

  /** The distinct values of a sequence, each at the place it first occurs. */
  function FirstAppearances(macs: seq<string>): seq<string> {
    if macs == [] then []
    else
      var rest := FirstAppearances(macs[..|macs| - 1]);
      var mac := macs[|macs| - 1];
      if mac in rest then rest else rest + [mac]
  }

  lemma GroupSnoc(records: seq<Record>, r: Record)
    ensures Group(records + [r]) == Put(Group(records), r.mac, Get(Group(records), r.mac).GetOr([]) + [SampleOf(r)])
  {
    assert (records + [r])[..|records|] == records;
  }

  /** Creating an empty list for a new MAC and then appending is appending to the list or to nothing. */
  lemma AddSample(g: Dict<string, seq<Sample>>, mac: string, s: Sample)
    ensures var g1 := if mac in Keys(g) then g else Put(g, mac, []);
      Get(g1, mac).Some? && Put(g1, mac, Get(g1, mac).value + [s]) == Put(g, mac, Get(g, mac).GetOr([]) + [s])
  {
    PutGet(g, mac, [], mac);
    if mac !in Keys(g) {
      assert Get(g, mac).GetOr([]) + [s] == [s];
      assert Get(Put(g, mac, []), mac).value + [s] == [s];
      PutPut(g, mac, [], [s]);
    }
  }

  /** The two assignments of the grouping loop add one record to the groups. */
  lemma GroupAdd(records: seq<Record>, r: Record)
    ensures var g := Group(records);
      var g1 := if r.mac in Keys(g) then g else Put(g, r.mac, []);
      Get(g1, r.mac).Some? && Put(g1, r.mac, Get(g1, r.mac).value + [SampleOf(r)]) == Group(records + [r])
  {
    GroupSnoc(records, r);
    AddSample(Group(records), r.mac, SampleOf(r));
  }

  lemma MedianDictStep(groups: Dict<string, seq<Sample>>, k: nat, medians: Dict<string, real>)
    requires k < |groups| && groups[k].1 != []
    requires MedianDict(groups[..k]) == Ok(medians)
    ensures MedianDict(groups[..k + 1]) == Ok(Put(medians, groups[k].0, Median(Distances(groups[k].1))))
  {
    assert groups[..k + 1][..k] == groups[..k];
  }

  /** The grouped MACs are the distinct MACs of the records, in order of first appearance. */
  lemma {:induction false} GroupKeyOrder(records: seq<Record>)
    ensures Keys(Group(records)) == FirstAppearances(Macs(records))
  {
    if records != [] {
      var rs := records[..|records| - 1];
      assert Macs(records)[..|records| - 1] == Macs(rs);
      GroupKeyOrder(rs);
    }
  }

  /** Each MAC's list holds the samples of its records, in record order; an unseen MAC has none. */
  lemma {:induction false} GroupValues(records: seq<Record>, mac: string)
    ensures Get(Group(records), mac) == if SamplesFor(records, mac) == [] then None else Some(SamplesFor(records, mac))
  {
    if records != [] {
      var rs := records[..|records| - 1];
      var r := records[|records| - 1];
      GroupValues(rs, mac);
      GroupValues(rs, r.mac);
      PutGet(Group(rs), r.mac, Get(Group(rs), r.mac).GetOr([]) + [SampleOf(r)], mac);
    }
  }

  lemma {:induction false} GroupUnique(records: seq<Record>)
    ensures UniqueKeys(Group(records))
  {
    if records != [] {
      var rs := records[..|records| - 1];
      var r := records[|records| - 1];
      GroupUnique(rs);
      PutUnique(Group(rs), r.mac, Get(Group(rs), r.mac).GetOr([]) + [SampleOf(r)]);
    }
  }

  /** No grouped list is empty. */
  lemma GroupNonEmpty(records: seq<Record>)
    ensures UniqueKeys(Group(records))
    ensures forall i :: 0 <= i < |Group(records)| ==> Group(records)[i].1 != []
  {
    var g := Group(records);
    GroupUnique(records);
    forall i | 0 <= i < |g|
      ensures g[i].1 != []
    {
      GetAt(g, i);
      GroupValues(records, g[i].0);
    }
  }

  /** The medians of grouped lists: one per key, in key order, each the median of that key's distances. */
  lemma {:induction false} MedianDictGet(groups: Dict<string, seq<Sample>>, mac: string)
    requires UniqueKeys(groups)
    requires forall i :: 0 <= i < |groups| ==> groups[i].1 != []
    ensures MedianDict(groups).Ok?
    ensures Keys(MedianDict(groups).value) == Keys(groups)
    ensures Get(MedianDict(groups).value, mac)
         == if mac in Keys(groups) then Some(Median(Distances(Get(groups, mac).value))) else None
  {
    if groups != [] {
      var g0 := groups[..|groups| - 1];
      var (k, samples) := groups[|groups| - 1];
      SplitLast(groups);
      KeysSnoc(g0, k, samples);
      assert k !in Keys(g0) by {
        forall i | 0 <= i < |g0|
          ensures Keys(g0)[i] != k
        {
          assert g0[i] == groups[i];
        }
      }
      MedianDictGet(g0, mac);
      var m0 := MedianDict(g0).value;
      var med := Median(Distances(samples));
      GetSnoc(g0, k, samples, mac);
      PutGet(m0, k, med, mac);
    }
  }

  /**
   * The whole median step: a MAC with kept records gets the median of its
   * calibrated distances, any other MAC gets no entry.
   */
  lemma MedianOfGroup(records: seq<Record>, mac: string)
    ensures MedianDict(Group(records)).Ok?
    ensures Get(MedianDict(Group(records)).value, mac)
         == if SamplesFor(records, mac) == [] then None else Some(Median(Distances(SamplesFor(records, mac))))
  {
    GroupNonEmpty(records);
    GroupValues(records, mac);
    MedianDictGet(Group(records), mac);
  }

  /** Each MAC's median lies between the least and the greatest of its calibrated distances. */
  lemma MedianBounds(records: seq<Record>, mac: string)
    requires SamplesFor(records, mac) != []
    ensures MedianDict(Group(records)).Ok?
    ensures Get(MedianDict(Group(records)).value, mac).Some?
    ensures var d := Distances(SamplesFor(records, mac));
      Min(d) <= Get(MedianDict(Group(records)).value, mac).value <= Max(d)
  {
    MedianOfGroup(records, mac);
    MedianBetweenMinAndMax(Distances(SamplesFor(records, mac)));
  }

  class Measurement {
    /** The calibration (slope, offset) applied to every raw distance. */
    var cali: (real, real)
    /** What the object last wrote to its request file; None before the first write. */
    var configFile: Option<string>

    constructor(cali: (real, real) := DefaultCali)
      ensures this.cali == cali && configFile == None
    {
      this.cali := cali;
      configFile := None;
    }

    /** prepare_config_file: false for a non-dict; otherwise rewrites the request file and returns true. */
    method PrepareConfigFile(targets: Targets) returns (ok: bool)
      modifies this`configFile
      ensures ok == targets.Targets?
      ensures ok ==> configFile == Some(ConfigText(targets.entries))
      ensures !ok ==> configFile == old(configFile)
    {
      if !targets.Targets? {
        return false;
      }
      var entries := targets.entries;
      var text := "";
      for j := 0 to |entries|
        invariant text == ConfigText(entries[..j])
      {
        var (bssid, p) := entries[j];
        PrefixSnoc(entries, j);
        text := text + ConfigBody(bssid, p) + "\n";
      }
      TakeAll(entries);
      configFile := Some(text);
      return true;
    }

    /** get_distance_once on one round's matches: the accepted ones, calibrated, in match order. */
    method GetDistanceOnce(matches: seq<Match>) returns (result: seq<Record>)
      ensures result == KeptRecords(cali, matches)
    {
      result := [];
      for j := 0 to |matches|
        invariant result == KeptRecords(cali, matches[..j])
      {
        var m := matches[j];
        KeptRecordsStep(cali, matches, j);
        if m.status != 0 || m.rawDistance < -1000 {
          continue;
        }
        var distance := cali.0 * m.rawDistance as real + cali.1;
        assert Record(m.mac, distance, m.rtt, m.rawDistance) == RecordOf(cali, m);
        result := result + [Record(m.mac, distance, m.rtt, m.rawDistance)];
      }
      TakeAll(matches);
    }

    /**
     * get_distance_median: runs max(rounds, 1) rounds, groups the kept
     * records by MAC and returns each MAC's median calibrated distance.
     */
    method GetDistanceMedian(rounds: int := 1, roundMatches: nat -> seq<Match>) returns (medians: Dict<string, real>)
      ensures var n := if rounds < 1 then 1 else rounds;
        MedianDict(Group(RoundsRecords(cali, roundMatches, n))) == Ok(medians)
    {
      var n := rounds;
      if n < 1 {
        n := 1;
      }
      var result: Dict<string, seq<Sample>> := [];
      for i := 0 to n
        invariant result == Group(RoundsRecords(cali, roundMatches, i))
      {
        var records := GetDistanceOnce(roundMatches(i));
        ghost var done := RoundsRecords(cali, roundMatches, i);
        AppendNothing(done, records);
        for j := 0 to |records|
          invariant result == Group(done + records[..j])
        {
          var each := records[j];
          AppendPrefix(done, records, j);
          GroupAdd(done + records[..j], each);
          if each.mac !in Keys(result) {
            result := Put(result, each.mac, []);
          }
          result := Put(result, each.mac, Get(result, each.mac).value + [SampleOf(each)]);
        }
        TakeAll(records);
        assert RoundsRecords(cali, roundMatches, i + 1) == done + records;
      }
      medians := [];
      GroupNonEmpty(RoundsRecords(cali, roundMatches, n));
      for k := 0 to |result|
        invariant MedianDict(result[..k]) == Ok(medians)
      {
        var (mac, samples) := result[k];
        MedianDictStep(result, k, medians);
        medians := Put(medians, mac, Median(Distances(samples)));
      }
      TakeAll(result);
    }
  }
}
