/** The six pagination cursors, their printed form and their parsers (src/data/cursor.rs). */
module Cursor {
  import opened Wrappers
  import opened Ints
  import opened Decimal

  datatype BlockCursor = BlockCursor(block: nat)
  datatype ExtrinsicCursor = ExtrinsicCursor(block: nat, index: nat)
  datatype TransferCursor = TransferCursor(block: nat, eventIdx: nat)
  datatype PhaseKind = Initialization | ApplyExtrinsic | Finalization
  datatype EventCursor = EventCursor(block: nat, phase: PhaseKind, index: nat)
  datatype AtsCursor = AtsCursor(id: nat)
  datatype AtsFeedCursor = AtsFeedCursor(blockNum: nat, atsId: nat, version: nat)

  datatype ParseError = ParseError(input: string, expected: string)

  // ---- printing ----

  function Letter(phase: PhaseKind): char {
    match phase
    case Initialization => 'I'
    case ApplyExtrinsic => 'A'
    case Finalization => 'F'
  }

  function FromLetter(c: char): Option<PhaseKind> {
    match c
    case 'I' => Some(Initialization)
    case 'A' => Some(ApplyExtrinsic)
    case 'F' => Some(Finalization)
    case _ => None
  }

  function PrintBlock(c: BlockCursor): string { Print(c.block) }

  function PrintExtrinsic(c: ExtrinsicCursor): string { Print(c.block) + "-" + Print(c.index) }

  function PrintTransfer(c: TransferCursor): string { Print(c.block) + "-" + Print(c.eventIdx) }

  function PrintEvent(c: EventCursor): string { Print(c.block) + "-" + [Letter(c.phase)] + "-" + Print(c.index) }

  function PrintAts(c: AtsCursor): string { Print(c.id) }

  function PrintAtsFeed(c: AtsFeedCursor): string {
    Print(c.blockNum) + "-" + Print(c.atsId) + "-" + Print(c.version)
  }

  // ---- splitting ----

  /** `split_once('-')` */
  function SplitOnce(s: string): Option<(string, string)> {
    if s == "" then None
    else if s[0] == '-' then Some(("", s[1..]))
    else
      match SplitOnce(s[1..])
      case None => None
      case Some((a, b)) => Some(([s[0]] + a, b))
  }

  /** The three parts of `splitn(3, '-')`, when there are three: the last one may hold more dashes. */
  function SplitThree(s: string): Option<(string, string, string)> {
    match SplitOnce(s)
    case None => None
    case Some((a, rest)) =>
      match SplitOnce(rest)
      case None => None
      case Some((b, c)) => Some((a, b, c))
  }

  // ---- parsing ----

  function ParseBlock(s: string): Result<BlockCursor, ParseError> {
    match Parse(s, U64_MAX)
    case Some(block) => Ok(BlockCursor(block))
    case None => Err(ParseError(s, "<block_num> (u64)"))
  }

  function ParseExtrinsic(s: string): Result<ExtrinsicCursor, ParseError> {
    match SplitOnce(s)
    case None => Err(ParseError(s, "<block>-<idx>"))
    case Some((b, i)) =>
      match Parse(b, U64_MAX)
      case None => Err(ParseError(s, "<block>-<idx> (block must be u64)"))
      case Some(block) =>
        match Parse(i, U32_MAX)
        case None => Err(ParseError(s, "<block>-<idx> (idx must be u32)"))
        case Some(index) => Ok(ExtrinsicCursor(block, index))
  }

  function ParseTransfer(s: string): Result<TransferCursor, ParseError> {
    match SplitOnce(s)
    case None => Err(ParseError(s, "<block>-<event_idx>"))
    case Some((b, e)) =>
      match Parse(b, U64_MAX)
      case None => Err(ParseError(s, "<block>-<event_idx> (block must be u64)"))
      case Some(block) =>
        match Parse(e, U32_MAX)
        case None => Err(ParseError(s, "<block>-<event_idx> (event_idx must be u32)"))
        case Some(eventIdx) => Ok(TransferCursor(block, eventIdx))
  }

  const EVENT_GRAMMAR := "<block>-<phase>-<idx> with phase in I|A|F"

  /** The phase part must be a single letter. */
  function ParsePhase(p: string): Option<PhaseKind> {
    if |p| == 1 then FromLetter(p[0]) else None
  }

  function ParseEvent(s: string): Result<EventCursor, ParseError> {
    match SplitThree(s)
    case None => Err(ParseError(s, EVENT_GRAMMAR))
    case Some((b, p, i)) =>
      match (Parse(b, U64_MAX), ParsePhase(p), Parse(i, U32_MAX))
      case (Some(block), Some(phase), Some(index)) => Ok(EventCursor(block, phase, index))
      case _ => Err(ParseError(s, EVENT_GRAMMAR))
  }

  function ParseAts(s: string): Result<AtsCursor, ParseError> {
    match Parse(s, U32_MAX)
    case Some(id) => Ok(AtsCursor(id))
    case None => Err(ParseError(s, "<id> (u32)"))
  }

  const FEED_GRAMMAR := "<block_num>-<ats_id>-<version>"

  function ParseAtsFeed(s: string): Result<AtsFeedCursor, ParseError> {
    match SplitThree(s)
    case None => Err(ParseError(s, FEED_GRAMMAR))
    case Some((b, a, v)) =>
      match Parse(b, U64_MAX)
      case None => Err(ParseError(s, FEED_GRAMMAR + " (block_num must be u64)"))
      case Some(blockNum) =>
        match Parse(a, U32_MAX)
        case None => Err(ParseError(s, FEED_GRAMMAR + " (ats_id must be u32)"))
        case Some(atsId) =>
          match Parse(v, U32_MAX)
          case None => Err(ParseError(s, FEED_GRAMMAR + " (version must be u32)"))
          case Some(version) => Ok(AtsFeedCursor(blockNum, atsId, version))
  }

  // ---- splitting undoes joining ----

  lemma {:induction false} SplitJoined(a: string, b: string)
    requires '-' !in a
    ensures SplitOnce(a + "-" + b) == Some((a, b))
    decreases |a|
  {
    var s := a + "-" + b;
    if a == "" {
      assert s[1..] == b;
    } else {
      assert s[1..] == a[1..] + "-" + b;
      SplitJoined(a[1..], b);
      assert [a[0]] + a[1..] == a;
    }
  }

  lemma {:induction false} SplitIsJoined(s: string)
    ensures SplitOnce(s).None? <==> '-' !in s
    ensures SplitOnce(s).Some? ==> var (a, b) := SplitOnce(s).value; '-' !in a && s == a + "-" + b
    decreases |s|
  {
    if s != "" && s[0] != '-' {
      SplitIsJoined(s[1..]);
      assert s == [s[0]] + s[1..];
      if SplitOnce(s).Some? {
        var (a, b) := SplitOnce(s[1..]).value;
        assert s == ([s[0]] + a) + "-" + b;
      }
    }
  }

  lemma SplitThreeJoined(a: string, b: string, c: string)
    requires '-' !in a && '-' !in b
    ensures SplitThree(a + "-" + b + "-" + c) == Some((a, b, c))
  {
    assert a + "-" + b + "-" + c == a + "-" + (b + "-" + c);
    SplitJoined(a, b + "-" + c);
    SplitJoined(b, c);
  }

  // ---- what is accepted ----

  ghost predicate TwoFields(s: string, m: nat, n: nat) {
    exists a, b :: s == JoinTwo(a, b) && Numeral(a, m) && Numeral(b, n)
  }

  ghost predicate EventFields(s: string, m: nat, phase: PhaseKind, n: nat) {
    exists a, b :: s == JoinThree(a, [Letter(phase)], b) && Numeral(a, m) && Numeral(b, n)
  }

  ghost predicate ThreeFields(s: string, k: nat, m: nat, n: nat) {
    exists a, b, c :: s == JoinThree(a, b, c) && Numeral(a, k) && Numeral(b, m) && Numeral(c, n)
  }

  function JoinTwo(a: string, b: string): string { a + "-" + b }

  function JoinThree(a: string, b: string, c: string): string { a + "-" + b + "-" + c }

  /** A block or ATS cursor is one numeral in range. */
  lemma SingleAcceptsIff(s: string, n: nat)
    ensures ParseBlock(s) == Ok(BlockCursor(n)) <==> Numeral(s, n) && n <= U64_MAX
    ensures ParseAts(s) == Ok(AtsCursor(n)) <==> Numeral(s, n) && n <= U32_MAX
  {
    ParseIff(s, n, U64_MAX);
    ParseIff(s, n, U32_MAX);
  }

  lemma TwoNumeralsIff(s: string, m: nat, n: nat)
    ensures TwoFields(s, m, n) && m <= U64_MAX && n <= U32_MAX <==>
      SplitOnce(s).Some? && Parse(SplitOnce(s).value.0, U64_MAX) == Some(m) && Parse(SplitOnce(s).value.1, U32_MAX) == Some(n)
  {
    if SplitOnce(s).Some? {
      SplitIsJoined(s);
      var (a, b) := SplitOnce(s).value;
      ParseIff(a, m, U64_MAX);
      ParseIff(b, n, U32_MAX);
      assert s == JoinTwo(a, b);
    }
    if TwoFields(s, m, n) {
      var a, b :| s == JoinTwo(a, b) && Numeral(a, m) && Numeral(b, n);
      NumeralHasNoDash(a, m);
      SplitJoined(a, b);
      ParseIff(a, m, U64_MAX);
      ParseIff(b, n, U32_MAX);
    }
  }

  /** An extrinsic or transfer cursor is two numerals in range, joined by a dash. */
  lemma PairAcceptsIff(s: string, m: nat, n: nat)
    ensures ParseExtrinsic(s) == Ok(ExtrinsicCursor(m, n)) <==> TwoFields(s, m, n) && m <= U64_MAX && n <= U32_MAX
    ensures ParseTransfer(s) == Ok(TransferCursor(m, n)) <==> TwoFields(s, m, n) && m <= U64_MAX && n <= U32_MAX
  {
    TwoNumeralsIff(s, m, n);
  }

  lemma SplitThreeIsJoined(s: string)
    requires SplitThree(s).Some?
    ensures var (a, b, c) := SplitThree(s).value; s == JoinThree(a, b, c)
  {
    var (a, rest) := SplitOnce(s).value;
    var (b, c) := SplitOnce(rest).value;
    SplitIsJoined(s);
    SplitIsJoined(rest);
    assert a + "-" + (b + "-" + c) == JoinThree(a, b, c);
  }

  lemma LetterIff(p: string, phase: PhaseKind)
    ensures ParsePhase(p) == Some(phase) <==> p == [Letter(phase)]
  {
  }

  /** An event cursor is a block, one of the letters I, A and F, and an index. */
  lemma EventAcceptsIff(s: string, m: nat, phase: PhaseKind, n: nat)
    ensures ParseEvent(s) == Ok(EventCursor(m, phase, n)) <==> EventFields(s, m, phase, n) && m <= U64_MAX && n <= U32_MAX
  {
    if ParseEvent(s) == Ok(EventCursor(m, phase, n)) {
      SplitThreeIsJoined(s);
      var (a, p, b) := SplitThree(s).value;
      ParseIff(a, m, U64_MAX);
      ParseIff(b, n, U32_MAX);
      LetterIff(p, phase);
    }
    if EventFields(s, m, phase, n) && m <= U64_MAX && n <= U32_MAX {
      var a, b :| s == JoinThree(a, [Letter(phase)], b) && Numeral(a, m) && Numeral(b, n);
      NumeralHasNoDash(a, m);
      SplitThreeJoined(a, [Letter(phase)], b);
      ParseIff(a, m, U64_MAX);
      ParseIff(b, n, U32_MAX);
      LetterIff([Letter(phase)], phase);
    }
  }

  /** An ATS feed cursor is three numerals in range. */
  lemma FeedAcceptsIff(s: string, k: nat, m: nat, n: nat)
    ensures ParseAtsFeed(s) == Ok(AtsFeedCursor(k, m, n)) <==>
      ThreeFields(s, k, m, n) && k <= U64_MAX && m <= U32_MAX && n <= U32_MAX
  {
    if ParseAtsFeed(s) == Ok(AtsFeedCursor(k, m, n)) {
      SplitThreeIsJoined(s);
      var (a, b, c) := SplitThree(s).value;
      ParseIff(a, k, U64_MAX);
      ParseIff(b, m, U32_MAX);
      ParseIff(c, n, U32_MAX);
    }
    if ThreeFields(s, k, m, n) && k <= U64_MAX && m <= U32_MAX && n <= U32_MAX {
      var a, b, c :| s == JoinThree(a, b, c) && Numeral(a, k) && Numeral(b, m) && Numeral(c, n);
      NumeralHasNoDash(a, k);
      NumeralHasNoDash(b, m);
      SplitThreeJoined(a, b, c);
      ParseIff(a, k, U64_MAX);
      ParseIff(b, m, U32_MAX);
      ParseIff(c, n, U32_MAX);
    }
  }

  // ---- round trips ----

  lemma PairRoundTrip(m: nat, n: nat)
    requires m <= U64_MAX && n <= U32_MAX
    ensures ParseExtrinsic(PrintExtrinsic(ExtrinsicCursor(m, n))) == Ok(ExtrinsicCursor(m, n))
    ensures ParseTransfer(PrintTransfer(TransferCursor(m, n))) == Ok(TransferCursor(m, n))
  {
    PrintIsNumeral(m);
    PrintIsNumeral(n);
    assert PrintExtrinsic(ExtrinsicCursor(m, n)) == JoinTwo(Print(m), Print(n));
    PairAcceptsIff(JoinTwo(Print(m), Print(n)), m, n);
  }

  lemma SingleRoundTrip(n: nat)
    ensures n <= U64_MAX ==> ParseBlock(PrintBlock(BlockCursor(n))) == Ok(BlockCursor(n))
    ensures n <= U32_MAX ==> ParseAts(PrintAts(AtsCursor(n))) == Ok(AtsCursor(n))
  {
    PrintIsNumeral(n);
    SingleAcceptsIff(Print(n), n);
  }

  lemma EventRoundTrip(c: EventCursor)
    requires c.block <= U64_MAX && c.index <= U32_MAX
    ensures ParseEvent(PrintEvent(c)) == Ok(c)
  {
    PrintIsNumeral(c.block);
    PrintIsNumeral(c.index);
    assert PrintEvent(c) == JoinThree(Print(c.block), [Letter(c.phase)], Print(c.index));
    EventAcceptsIff(PrintEvent(c), c.block, c.phase, c.index);
  }

  lemma FeedRoundTrip(c: AtsFeedCursor)
    requires c.blockNum <= U64_MAX && c.atsId <= U32_MAX && c.version <= U32_MAX
    ensures ParseAtsFeed(PrintAtsFeed(c)) == Ok(c)
  {
    PrintIsNumeral(c.blockNum);
    PrintIsNumeral(c.atsId);
    PrintIsNumeral(c.version);
    assert PrintAtsFeed(c) == JoinThree(Print(c.blockNum), Print(c.atsId), Print(c.version));
    FeedAcceptsIff(PrintAtsFeed(c), c.blockNum, c.atsId, c.version);
  }

  /** The printed forms: fields in decimal, joined by dashes, and one letter for the phase. */
  lemma PrintedForms(m: nat, n: nat, k: nat)
    ensures PrintBlock(BlockCursor(m)) == Print(m) && PrintAts(AtsCursor(m)) == Print(m)
    ensures PrintExtrinsic(ExtrinsicCursor(m, n)) == Print(m) + "-" + Print(n)
    ensures PrintTransfer(TransferCursor(m, n)) == Print(m) + "-" + Print(n)
    ensures PrintEvent(EventCursor(m, Initialization, n)) == Print(m) + "-I-" + Print(n)
    ensures PrintEvent(EventCursor(m, ApplyExtrinsic, n)) == Print(m) + "-A-" + Print(n)
    ensures PrintEvent(EventCursor(m, Finalization, n)) == Print(m) + "-F-" + Print(n)
    ensures PrintAtsFeed(AtsFeedCursor(m, n, k)) == Print(m) + "-" + Print(n) + "-" + Print(k)
  {
    hide Print;
    forall phase ensures PrintEvent(EventCursor(m, phase, n)) == Print(m) + ("-" + [Letter(phase)] + "-") + Print(n) {
      assert PrintEvent(EventCursor(m, phase, n)) == Print(m) + "-" + [Letter(phase)] + "-" + Print(n);
    }
    assert "-" + [Letter(Initialization)] + "-" == "-I-";
    assert "-" + [Letter(ApplyExtrinsic)] + "-" == "-A-";
    assert "-" + [Letter(Finalization)] + "-" == "-F-";
  }

  /** Within a type, distinct cursors print differently. */
  lemma PrintingIsInjective(b: BlockCursor, b': BlockCursor, a: AtsCursor, a': AtsCursor,
                            x: ExtrinsicCursor, x': ExtrinsicCursor, e: EventCursor, e': EventCursor,
                            f: AtsFeedCursor, f': AtsFeedCursor)
    requires b.block <= U64_MAX && b'.block <= U64_MAX && a.id <= U32_MAX && a'.id <= U32_MAX
    requires x.block <= U64_MAX && x.index <= U32_MAX && x'.block <= U64_MAX && x'.index <= U32_MAX
    requires e.block <= U64_MAX && e.index <= U32_MAX && e'.block <= U64_MAX && e'.index <= U32_MAX
    requires f.blockNum <= U64_MAX && f.atsId <= U32_MAX && f.version <= U32_MAX
    requires f'.blockNum <= U64_MAX && f'.atsId <= U32_MAX && f'.version <= U32_MAX
    ensures PrintBlock(b) == PrintBlock(b') ==> b == b'
    ensures PrintAts(a) == PrintAts(a') ==> a == a'
    ensures PrintExtrinsic(x) == PrintExtrinsic(x') ==> x == x'
    ensures PrintTransfer(TransferCursor(x.block, x.index)) == PrintTransfer(TransferCursor(x'.block, x'.index)) ==> x == x'
    ensures PrintEvent(e) == PrintEvent(e') ==> e == e'
    ensures PrintAtsFeed(f) == PrintAtsFeed(f') ==> f == f'
  {
    SingleRoundTrip(b.block);
    SingleRoundTrip(b'.block);
    SingleRoundTrip(a.id);
    SingleRoundTrip(a'.id);
    PairRoundTrip(x.block, x.index);
    PairRoundTrip(x'.block, x'.index);
    EventRoundTrip(e);
    EventRoundTrip(e');
    FeedRoundTrip(f);
    FeedRoundTrip(f');
  }

  /** Parsing forgets what printing never produces: `+007` is the cursor of block 7. */
  lemma AcceptsMoreThanPrinted()
    ensures ParseBlock("+007") == Ok(BlockCursor(7)) && PrintBlock(BlockCursor(7)) == "7"
  {
    assert "+007"[1..] == "007" && "007"[1..] == "07" && "07"[1..] == "7" && "7"[1..] == "";
  }
}
