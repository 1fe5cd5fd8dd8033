/**
 * From an observation to the next startup: what the engine reports, write_record writes, valid_log_record accepts,
 * and the history check leaves alone.
 */
module LogChain {
  import opened Core
  import opened JsonText
  import opened JsonParser
  import opened JsonReader
  import opened JsonWriter
  import opened JsonFields
  import opened LogCheck
  import opened LogRecord
  import opened RecordWriter
  import Engine
  import History = HistoryRecovery

  /** The detection as the caller hands it on: with a wall clock and the meal flag, and a time JSON can hold. */
  ghost predicate HandedOn(d: Detection, reported: Detection, o: Engine.Observation, rules: seq<Rule>) {
    && Engine.Reported(reported, o, rules) && o.ms <= TIME_MAX
    && d == reported.(unixSeconds := d.unixSeconds, meal := d.meal)
    && forall r | r in rules :: CompiledRule(r)
  }

  lemma ReportedLoggable(d: Detection, reported: Detection, o: Engine.Observation, rules: seq<Rule>, c: Context)
    requires HandedOn(d, reported, o, rules) && SessionShape(c.session) && TokenShape(c.token)
    ensures Loggable(d, c)
  {
    hide CompiledRule, SessionShape, TokenShape, Octets, Engine.ProperRule;
  }

  lemma LoggableWritable(d: Detection, c: Context)
    requires Loggable(d, c)
    ensures Writable(d) && Octets(d.address)
  {
  }

  /** Everything the engine reports and the writer completes is a valid log record. */
  lemma ReportedAccepted(d: Detection, reported: Detection, o: Engine.Observation, rules: seq<Rule>, c: Context)
    requires HandedOn(d, reported, o, rules) && SessionShape(c.session) && TokenShape(c.token)
    ensures Writable(d) && Octets(d.address)
    ensures |RecordLine(d, c)| <= INPUT_MAX ==> ValidLine(RecordLine(d, c))
  {
    hide HandedOn, ValidLine, Loggable, Text, SessionShape, TokenShape;
    ReportedLoggable(d, reported, o, rules, c);
    LoggableWritable(d, c);
    if |RecordLine(d, c)| <= INPUT_MAX {
      WrittenAccepted(d, c, RecordLine(d, c));
    }
  }

  // ---- A written line is one row of the log file ----

  predicate Printable(t: string) {
    forall i | 0 <= i < |t| :: 32 as char <= t[i] < 127 as char
  }

  lemma EscapedPrintable(c: char)
    ensures Printable(Escaped(c))
  {
  }

  lemma {:induction false} EscapedAllPrintable(s: string)
    ensures Printable(EscapedAll(s))
  {
    hide Escaped;
    if s != "" {
      EscapedPrintable(s[0]);
      EscapedAllPrintable(s[1..]);
    }
  }

  lemma StringPrintable(s: string)
    ensures Printable(Text(StringNode(s)))
  {
    hide EscapedAll;
    EscapedAllPrintable(s);
  }

  lemma NumberPrintable(n: int)
    ensures Printable(Text(NumberNode(n)))
  {
    hide Natural;
    NaturalDigits(if n < 0 then -n else n);
  }

  lemma NaturalDigits(n: nat)
    ensures Printable(Natural(n))
  {
    assert AllDigits(Natural(n));
  }

  /** The values of a record print without control characters. */
  ghost predicate Prints(f: Field) {
    Printable(Text(f.value))
  }

  ghost predicate AllPrint(fields: seq<Field>) {
    forall i | 0 <= i < |fields| :: Prints(fields[i])
  }

  lemma {:induction false} MembersPrint(fields: seq<Field>)
    requires AllPrint(fields)
    ensures Printable(ElemsText(true, Members(fields)))
  {
    hide Text, Name, Quoted;
    if fields != [] {
      var n := |fields| - 1;
      MembersPrint(fields[..n]);
      MemberPrints(fields[n]);
      assert Members(fields)[..n] == Members(fields[..n]);
      assert Prints(fields[n]);
    }
  }

  lemma MemberPrints(f: Field)
    requires Prints(f)
    ensures Printable(ElemText(true, MemberElem(f)))
  {
    hide Name, EscapedAll, Text;
    EscapedAllPrintable(Name(f.key));
    assert ElemText(true, MemberElem(f)) == Quoted(Name(f.key)) + ":" + Text(f.value);
  }

  lemma {:induction false} IdsPrint(rules: seq<Rule>)
    ensures Printable(ElemsText(false, BareAll(IdNodes(rules))))
  {
    hide Text, StringNode, ElemText, Printable, ElemsText, Bare;
    NothingPrints();
    if rules != [] {
      var n := |rules| - 1;
      IdsPrint(rules[..n]);
      StringPrintable(rules[n].id);
      BareText(StringNode(rules[n].id));
      var elems := BareAll(IdNodes(rules));
      assert elems[..n] == BareAll(IdNodes(rules[..n]));
      assert elems[n] == Bare(StringNode(rules[n].id));
      LastPrints(elems);
    }
  }

  lemma NothingPrints()
    ensures Printable(ElemsText(false, BareAll(IdNodes([]))))
  {
  }

  lemma LastText(elems: seq<Elem>)
    requires elems != []
    ensures var n := |elems| - 1;
            ElemsText(false, elems) == ElemsText(false, elems[..n]) + (if n > 0 then "," else "")
                + ElemText(false, elems[n])
  {
    hide ElemText;
  }

  lemma PrintableJoined(a: string, b: string, c: string)
    requires Printable(a) && Printable(c) && (b == "" || b == ",")
    ensures Printable(a + b + c)
  {
  }

  lemma LastPrints(elems: seq<Elem>)
    requires elems != [] && Printable(ElemsText(false, elems[..|elems| - 1]))
        && Printable(ElemText(false, elems[|elems| - 1]))
    ensures Printable(ElemsText(false, elems))
  {
    hide ElemText, ElemsText, Printable;
    var n := |elems| - 1;
    LastText(elems);
    PrintableJoined(ElemsText(false, elems[..n]), if n > 0 then "," else "", ElemText(false, elems[n]));
  }

  lemma ListPrints(rules: seq<Rule>)
    requires rules != []
    ensures Printable(Text(ListNode(IdNodes(rules))))
  {
    hide ElemsText, IdNodes;
    IdsPrint(rules);
  }

  lemma WordsPrint(b: bool)
    ensures Printable(Text(BoolNode(b))) && Printable(Text(NULL))
  {
  }

  lemma PrintsTogether(a: seq<Field>, b: seq<Field>)
    requires AllPrint(a) && AllPrint(b)
    ensures AllPrint(a + b)
  {
    hide Prints;
  }

  lemma OriginPrints(d: Detection, c: Context)
    ensures AllPrint(OriginFields(d, c))
  {
    hide Printable, Text, StringNode, NumberNode, EventName;
    NumberPrintable(1);
    StringPrintable(FIRMWARE);
    StringPrintable(HARDWARE);
    StringPrintable(PACK);
    StringPrintable("US");
    StringPrintable("EU");
    StringPrintable(EventName(d, c.session));
    StringPrintable(c.session);
  }

  lemma TimePrints(d: Detection)
    ensures AllPrint(TimeFields(d))
  {
    hide Printable, Text, StringNode, NumberNode, Calendar.FormatUtc;
    WordsPrint(true);
    StringPrintable(Calendar.FormatUtc(d.unixSeconds));
    StringPrintable(MANUAL);
    StringPrintable(UPTIME_ONLY);
    NumberPrintable(d.lastMs);
    NumberPrintable(d.firstMs);
  }

  lemma CluePrints(d: Detection, c: Context)
    requires Writable(d)
    ensures AllPrint(ClueFields(d, c))
  {
    hide Printable, Text, StringNode, NumberNode, ListNode, IdNodes, GradeName;
    StringPrintable(CATEGORIES[d.category]);
    StringPrintable(d.rules[0].title);
    StringPrintable(GradeName(d.score));
    NumberPrintable(d.score);
    ListPrints(d.rules);
    StringPrintable(d.rules[0].reason);
  }

  lemma SignalPrints(d: Detection)
    requires Writable(d)
    ensures AllPrint(SignalFields(d))
  {
    hide Printable, Text, StringNode, NumberNode, Quotient;
    StringPrintable("wifi");
    StringPrintable("ble");
    NumberPrintable(d.channel);
    NumberPrintable(d.rssiMin);
    NumberPrintable(d.rssiMax);
    NumberPrintable(Quotient(d.rssiSum, d.seenCount));
    NumberPrintable(d.seenCount);
  }

  lemma PrivacyPrints(d: Detection, c: Context)
    requires Octets(d.address)
    ensures AllPrint(PrivacyFields(d, c))
  {
    hide Printable, Text, StringNode, BoolNode, Mac;
    StringPrintable(c.token);
    StringPrintable("random");
    StringPrintable("public");
    WordsPrint(d.meal);
    StringPrintable(PRIVATE_NAME);
    StringPrintable(RESEARCH_NAME);
    StringPrintable(Mac(d.address));
  }

  lemma RecordPrints(d: Detection, c: Context)
    requires Writable(d) && Octets(d.address)
    ensures AllPrint(RecordFields(d, c))
  {
    hide AllPrint, OriginFields, TimeFields, ClueFields, SignalFields, PrivacyFields;
    OriginPrints(d, c);
    TimePrints(d);
    CluePrints(d, c);
    SignalPrints(d);
    PrivacyPrints(d, c);
    PrintsTogether(OriginFields(d, c), TimeFields(d));
    PrintsTogether(OriginFields(d, c) + TimeFields(d), ClueFields(d, c));
    PrintsTogether(OriginFields(d, c) + TimeFields(d) + ClueFields(d, c), SignalFields(d));
    PrintsTogether(OriginFields(d, c) + TimeFields(d) + ClueFields(d, c) + SignalFields(d), PrivacyFields(d, c));
  }

  /** The line of a record holds no control character but the newline that ends it. */
  lemma LineShape(d: Detection, c: Context)
    requires Writable(d) && Octets(d.address)
    ensures var line := RecordLine(d, c);
            line != "" && line[|line| - 1] == '\n' && Printable(line[..|line| - 1])
  {
    hide RecordFields, ElemsText, AllPrint, Members;
    RecordPrints(d, c);
    MembersPrint(RecordFields(d, c));
    var f, line := RecordFields(d, c), RecordLine(d, c);
    RecordNotEmpty(d, c);
    assert line[..|line| - 1] == Text(ObjectNode(f)) == "{" + ElemsText(true, Members(f)) + "}";
  }

  lemma RecordNotEmpty(d: Detection, c: Context)
    requires Writable(d) && Octets(d.address)
    ensures RecordFields(d, c) != [] && Members(RecordFields(d, c)) != []
  {
    hide OriginFields, TimeFields, ClueFields, SignalFields, PrivacyFields;
  }

  /** A row of the firmware's own log, as the history check sees it. */
  lemma OwnLine(d: Detection, c: Context)
    requires Loggable(d, c) && |RecordLine(d, c)| < History.BUFFER
    ensures History.OwnRow(RecordLine(d, c), ValidLine)
  {
    hide ValidLine, Text, RecordFields, CompiledRule, SessionShape, TokenShape, Engine.Consistent, ObjectNode;
    WrittenAccepted(d, c, RecordLine(d, c));
    LineShape(d, c);
    PrintableRow(RecordLine(d, c));
  }

  lemma PrintableRow(line: string)
    requires line != "" && line[|line| - 1] == '\n' && Printable(line[..|line| - 1])
    ensures History.NUL !in line && '\n' !in line[..|line| - 1]
  {
    var head := line[..|line| - 1];
    assert forall i | 0 <= i < |head| :: line[i] == head[i];
  }

  // ---- The log file at the next startup ----

  datatype Written = Written(d: Detection, c: Context)

  ghost function LineOf(w: Written): string {
    if Writable(w.d) && Octets(w.d.address) then RecordLine(w.d, w.c) else ""
  }

  ghost predicate Complete(w: Written) {
    Loggable(w.d, w.c) && |LineOf(w)| < History.BUFFER
  }

  ghost function Each<A, B>(f: A -> B, s: seq<A>): (r: seq<B>)
    ensures |r| == |s| && forall i | 0 <= i < |s| :: r[i] == f(s[i])
  {
    if s == [] then [] else Each(f, s[..|s| - 1]) + [f(s[|s| - 1])]
  }

  ghost function Lines(log: seq<Written>): seq<string> {
    Each(w => LineOf(w), log)
  }

  lemma OwnWritten(w: Written)
    requires Complete(w)
    ensures History.OwnRow(LineOf(w), ValidLine) && LineOf(w) != "" && '\n' !in LineOf(w)[..|LineOf(w)| - 1]
    ensures |LineOf(w)| < History.BUFFER
  {
    hide RecordLine, CompiledRule, SessionShape, TokenShape, Engine.Consistent, ValidLine;
    OwnLine(w.d, w.c);
  }

  lemma LinesOwned(log: seq<Written>)
    requires forall w | w in log :: Complete(w)
    ensures forall r | r in Lines(log) :: History.OwnRow(r, ValidLine)
  {
    hide ValidLine, LineOf, History.OwnRow, Complete;
    var lines := Lines(log);
    forall r | r in lines ensures History.OwnRow(r, ValidLine) {
      var i :| 0 <= i < |log| && r == lines[i];
      assert log[i] in log;
      OwnWritten(log[i]);
    }
  }

  /**
   * The history check takes a log of complete records for clean, and one that was cut off inside the next record for
   * torn, and then keeps every complete record.
   */
  lemma OwnLogSurvives(log: seq<Written>, cut: Written, size: nat, e: History.Entry)
    requires (forall w | w in log :: Complete(w)) && Complete(cut) && size < |LineOf(cut)|
    requires !e.unreadable && |log| <= e.told
    ensures var rows := History.Joined(Lines(log));
            History.Judge(rows + LineOf(cut)[..size], 0, 0, e, ValidLine)
            == (if size == 0 then History.Clean else History.Torn, |rows|)
  {
    hide ValidLine, History.Judge, History.Joined, LineOf, History.OwnRow, Complete;
    var lines, tail := Lines(log), LineOf(cut)[..size];
    LinesOwned(log);
    OwnWritten(cut);
    PrefixWithout(LineOf(cut), size);
    History.OwnLogJudged("", lines, tail, 0, e, ValidLine);
    assert "" + History.Joined(lines) + tail == History.Joined(lines) + tail;
  }

  /** A log file: the complete records, and how much of a next one was written. */
  datatype WrittenFile = WrittenFile(log: seq<Written>, cut: Written, size: nat)

  ghost predicate CutShort(f: WrittenFile, e: History.Entry) {
    && (forall w | w in f.log :: Complete(w)) && Complete(f.cut)
    && f.size < |LineOf(f.cut)| && |f.log| <= e.told
  }

  ghost function Rows(f: WrittenFile): string {
    History.Joined(Lines(f.log))
  }

  ghost function FileText(f: WrittenFile): string
    requires f.size <= |LineOf(f.cut)|
  {
    Rows(f) + LineOf(f.cut)[..f.size]
  }

  lemma WrittenOwned(f: WrittenFile, e: History.Entry) returns (own: History.OwnFile)
    requires CutShort(f, e)
    ensures History.Owns(own, e, ValidLine) && Rows(f) == History.Joined(own.rows)
    ensures f.size <= |LineOf(f.cut)| && own.tail == LineOf(f.cut)[..f.size]
  {
    hide ValidLine, History.Joined, LineOf, History.OwnRow, Complete;
    LinesOwned(f.log);
    OwnWritten(f.cut);
    PrefixWithout(LineOf(f.cut), f.size);
    own := History.OwnFile(Lines(f.log), LineOf(f.cut)[..f.size]);
  }

  ghost predicate WrittenCard(disk: seq<string>, logs: seq<WrittenFile>, dir: History.Directory) {
    && |disk| == |logs| == |dir.entries|
    && forall i | 0 <= i < |disk| && dir.entries[i].isLog ::
         CutShort(logs[i], dir.entries[i]) && disk[i] == FileText(logs[i])
  }

  /**
   * A card that holds the logs of earlier sessions, each possibly cut off inside its last record: the startup check
   * keeps every complete record of every log, cuts off the rest, and leaves the card writable.
   */
  lemma OwnCardSurvives(disk: seq<string>, logs: seq<WrittenFile>, dir: History.Directory)
    requires WrittenCard(disk, logs, dir) && History.Smooth(dir) && History.Logs(dir, 0, |disk|) <= History.FILES_MAX
    ensures History.Fitting(History.Begun(disk), dir)
    ensures var r := History.RunAll(History.Begun(disk), dir, ValidLine);
            && !r.readOnly && |r.disk| == |disk|
            && forall i | 0 <= i < |disk| :: r.disk[i] == if dir.entries[i].isLog then Rows(logs[i]) else disk[i]
  {
    hide ValidLine, History.Joined, LineOf, Rows, CutShort, History.Owns, History.RunAll, History.Smooth;
    var own := [];
    for i := 0 to |disk|
      invariant |own| == i
      invariant forall k | 0 <= k < i && dir.entries[k].isLog ::
                  History.Owns(own[k], dir.entries[k], ValidLine) && Rows(logs[k]) == History.Joined(own[k].rows)
                  && disk[k] == History.Joined(own[k].rows) + own[k].tail
    {
      var next := History.OwnFile([], "");
      if dir.entries[i].isLog {
        next := WrittenOwned(logs[i], dir.entries[i]);
      }
      own := own + [next];
    }
    History.OwnDiskFits(disk, own, dir, ValidLine);
    History.OwnCardKept(disk, own, dir, ValidLine);
  }

  lemma PrefixWithout(line: string, size: nat)
    requires line != "" && size < |line| && '\n' !in line[..|line| - 1]
    ensures '\n' !in line[..size]
  {
    assert line[..|line| - 1][..size] == line[..size];
  }
}
