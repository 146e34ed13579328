/** The bulk label box of the dashboard: one transaction id per line, with an optional verdict. */
module LabelLines {
  import opened Decimal

  datatype Label = Label(transactionId: string, isFraud: bool)

  /** What one line says. */
  datatype Reading =
    | Entry(given: Label)
    | Malformed
    | UnknownVerdict(verdict: string)

  /** A complaint about a line, numbered from one among the lines that are not blank. */
  datatype Complaint = Complaint(line: nat, about: Reading)

  predicate IsSpace(c: char) {
    || '\t' <= c <= '\r' || c == ' ' || c == '\U{A0}' || c == '\U{1680}' || '\U{2000}' <= c <= '\U{200A}'
    || c == '\U{2028}' || c == '\U{2029}' || c == '\U{202F}' || c == '\U{205F}' || c == '\U{3000}' || c == '\U{FEFF}'
  }

  predicate IsTrimmed(s: string) {
    s == [] || (!IsSpace(s[0]) && !IsSpace(s[|s| - 1]))
  }

  function Trim(s: string): (t: string)
    ensures IsTrimmed(t)
    ensures IsTrimmed(s) ==> t == s
    ensures forall c <- t :: c in s
  {
    if s == [] then []
    else if IsSpace(s[0]) then Trim(s[1..])
    else if IsSpace(s[|s| - 1]) then Trim(s[..|s| - 1])
    else s
  }

  function TrimAll(pieces: seq<string>): (trimmed: seq<string>)
    ensures |trimmed| == |pieces|
    ensures forall i | 0 <= i < |pieces| :: trimmed[i] == Trim(pieces[i])
  {
    if pieces == [] then [] else [Trim(pieces[0])] + TrimAll(pieces[1..])
  }

  function NotBlank(lines: seq<string>): seq<string> {
    if lines == [] then []
    else if lines[0] == [] then NotBlank(lines[1..])
    else [lines[0]] + NotBlank(lines[1..])
  }

  /** Lower case, as far as it can produce one of the verdict words. */
  function Lower(s: string): string {
    if s == [] then [] else [if 'A' <= s[0] <= 'Z' then (s[0] as int + 32) as char else s[0]] + Lower(s[1..])
  }

  const FRAUD_WORDS := ["true", "fraud", "1", "yes"]
  const LEGIT_WORDS := ["false", "legit", "legitimate", "0", "no"]

  function ReadLine(line: string, defaultIsFraud: bool): Reading {
    var parts := TrimAll(Split(line, ','));
    if parts[0] == [] || |parts| > 2 then Malformed
    else if |parts| < 2 || parts[1] == [] then Entry(Label(parts[0], defaultIsFraud))
    else if Lower(parts[1]) in FRAUD_WORDS then Entry(Label(parts[0], true))
    else if Lower(parts[1]) in LEGIT_WORDS then Entry(Label(parts[0], false))
    else UnknownVerdict(parts[1])
  }

  function ReadLines(lines: seq<string>, defaultIsFraud: bool): (readings: seq<Reading>)
    ensures |readings| == |lines|
    ensures forall i | 0 <= i < |lines| :: readings[i] == ReadLine(lines[i], defaultIsFraud)
  {
    if lines == [] then [] else [ReadLine(lines[0], defaultIsFraud)] + ReadLines(lines[1..], defaultIsFraud)
  }

  /** The readings of the lines of a text that are not blank. */
  function Readings(text: string, defaultIsFraud: bool): seq<Reading> {
    ReadLines(NotBlank(TrimAll(Split(text, '\n'))), defaultIsFraud)
  }

  predicate Labels(reading: Reading, id: string) {
    reading.Entry? && reading.given.transactionId == id
  }

  predicate Mentions(readings: seq<Reading>, id: string) {
    exists i | 0 <= i < |readings| :: Labels(readings[i], id)
  }

  /** The entries that no later entry for the same transaction replaces, in the order of the lines. */
  function LastWins(readings: seq<Reading>): seq<Label> {
    if readings == [] then []
    else
      var later := LastWins(readings[1..]);
      if readings[0].Entry? && !Mentions(readings[1..], readings[0].given.transactionId)
      then [readings[0].given] + later
      else later
  }

  function Complaints(readings: seq<Reading>): seq<Complaint> {
    if readings == [] then []
    else
      var last := |readings| - 1;
      Complaints(readings[..last]) + if readings[last].Entry? then [] else [Complaint(last + 1, readings[last])]
  }

  method ParseLabelLines(text: string, defaultIsFraud: bool) returns (labels: seq<Label>, errors: seq<Complaint>)
    ensures labels == LastWins(Readings(text, defaultIsFraud))
    ensures errors == Complaints(Readings(text, defaultIsFraud))
  {
    var lines := NotBlank(TrimAll(Split(text, '\n')));
    ghost var readings := Readings(text, defaultIsFraud);
    labels, errors := [], [];
    for i := 0 to |lines|
      invariant labels == LastWins(readings[..i])
      invariant errors == Complaints(readings[..i])
    {
      var reading := ReadLine(lines[i], defaultIsFraud);
      OneMoreLine(readings, i);
      if !reading.Entry? {
        errors := errors + [Complaint(i + 1, reading)];
      } else {
        var existing := FindIndex(labels, reading.given.transactionId);
        if existing >= 0 {
          labels := labels[..existing] + labels[existing + 1..];
        }
        labels := labels + [reading.given];
      }
    }
    assert readings[..|lines|] == readings;
  }

  lemma OneMoreLine(readings: seq<Reading>, i: nat)
    requires i < |readings|
    ensures LastWins(readings[..i + 1]) == Absorbed(LastWins(readings[..i]), readings[i])
    ensures Complaints(readings[..i + 1]) ==
            if readings[i].Entry? then Complaints(readings[..i])
            else Complaints(readings[..i]) + [Complaint(i + 1, readings[i])]
  {
    assert readings[..i + 1] == readings[..i] + [readings[i]];
    assert readings[..i + 1][..i] == readings[..i];
    NextWins(readings[..i], readings[i]);
  }

  /** The first place of a transaction among the labels, or -1. */
  function FindIndex(labels: seq<Label>, id: string): (place: int)
    ensures -1 <= place < |labels|
    ensures place >= 0 ==> labels[place].transactionId == id
    ensures forall i | 0 <= i < (if place >= 0 then place else |labels|) :: labels[i].transactionId != id
  {
    if labels == [] then -1
    else if labels[0].transactionId == id then 0
    else
      var place := FindIndex(labels[1..], id);
      if place < 0 then -1 else place + 1
  }

  predicate Has(labels: seq<Label>, id: string) {
    exists i | 0 <= i < |labels| :: labels[i].transactionId == id
  }

  ghost predicate DistinctIds(labels: seq<Label>) {
    forall i, j | 0 <= i < j < |labels| :: labels[i].transactionId != labels[j].transactionId
  }

  /** What the splice leaves: everything but the entry of this transaction. */
  function Spliced(labels: seq<Label>, id: string): seq<Label> {
    var existing := FindIndex(labels, id);
    if existing >= 0 then labels[..existing] + labels[existing + 1..] else labels
  }

  /** The labels after one more line. */
  function Absorbed(labels: seq<Label>, next: Reading): seq<Label> {
    if next.Entry? then Spliced(labels, next.given.transactionId) + [next.given] else labels
  }

  /** A label is listed for exactly the transactions some entry names, and each only once. */
  lemma {:induction false} ListedOnce(readings: seq<Reading>)
    ensures DistinctIds(LastWins(readings))
    ensures forall id :: Has(LastWins(readings), id) <==> Mentions(readings, id)
  {
    if readings != [] {
      var first, rest := readings[0], readings[1..];
      ListedOnce(rest);
      var labels, later := LastWins(readings), LastWins(rest);
      forall id ensures Has(labels, id) <==> Mentions(readings, id) {
        MentionsFirst(readings, id);
        if labels != later {
          assert labels[1..] == later;
          HasFirst(labels, id);
        }
      }
      if labels != later {
        forall j | 0 <= j < |later| ensures later[j].transactionId != first.given.transactionId {
          assert Has(later, later[j].transactionId);
        }
      }
    }
  }

  lemma MentionsFirst(readings: seq<Reading>, id: string)
    requires readings != []
    ensures Mentions(readings, id) <==> Labels(readings[0], id) || Mentions(readings[1..], id)
  {
    if Mentions(readings[1..], id) {
      var i :| 0 <= i < |readings[1..]| && Labels(readings[1..][i], id);
      assert Labels(readings[i + 1], id);
    }
    if Mentions(readings, id) && !Labels(readings[0], id) {
      var i :| 0 <= i < |readings| && Labels(readings[i], id);
      assert Labels(readings[1..][i - 1], id);
    }
  }

  lemma HasFirst(labels: seq<Label>, id: string)
    requires labels != []
    ensures Has(labels, id) <==> labels[0].transactionId == id || Has(labels[1..], id)
  {
    if Has(labels[1..], id) {
      var i :| 0 <= i < |labels[1..]| && labels[1..][i].transactionId == id;
      assert labels[i + 1].transactionId == id;
    }
    if Has(labels, id) && labels[0].transactionId != id {
      var i :| 0 <= i < |labels| && labels[i].transactionId == id;
      assert labels[1..][i - 1].transactionId == id;
    }
  }

  /** One more line: an entry moves its transaction to the end, anything else changes no label. */
  lemma {:induction false} NextWins(readings: seq<Reading>, next: Reading)
    ensures LastWins(readings + [next]) == Absorbed(LastWins(readings), next)
  {
    if readings == [] {
      assert [next][1..] == [];
      assert LastWins([]) == [];
    } else {
      var rest := readings[1..];
      assert (readings + [next])[1..] == rest + [next];
      NextWins(rest, next);
      var id := if readings[0].Entry? then readings[0].given.transactionId else "";
      MentionsNext(rest, next, id);
      if readings[0].Entry? && !Mentions(rest, id) {
        FirstStays(readings, next);
      }
    }
  }

  lemma FirstStays(readings: seq<Reading>, next: Reading)
    requires readings != [] && readings[0].Entry? && !Mentions(readings[1..], readings[0].given.transactionId)
    requires LastWins(readings[1..] + [next]) == Absorbed(LastWins(readings[1..]), next)
    ensures LastWins(readings + [next]) == Absorbed(LastWins(readings), next)
  {
    var first, rest, all := readings[0].given, readings[1..], readings + [next];
    var later := LastWins(rest);
    assert all[1..] == rest + [next] && all[0] == readings[0];
    MentionsNext(rest, next, first.transactionId);
    if next.Entry? {
      assert !Has(later, first.transactionId) by { ListedOnce(rest); }
      SplicedFirst(first, later, next.given.transactionId);
      JoinMore([first], Spliced(later, next.given.transactionId), [next.given]);
    }
  }

  lemma JoinMore(a: seq<Label>, b: seq<Label>, c: seq<Label>)
    ensures a + b + c == a + (b + c)
  {
  }

  lemma MentionsNext(readings: seq<Reading>, next: Reading, id: string)
    ensures Mentions(readings + [next], id) <==> Mentions(readings, id) || Labels(next, id)
  {
    var all := readings + [next];
    if Mentions(readings, id) {
      var i :| 0 <= i < |readings| && Labels(readings[i], id);
      assert Labels(all[i], id);
    }
    if Labels(next, id) {
      assert Labels(all[|readings|], id);
    }
  }

  lemma SplicedFirst(first: Label, later: seq<Label>, id: string)
    requires !Has(later, first.transactionId)
    ensures Spliced([first] + later, id) == if first.transactionId == id then later else [first] + Spliced(later, id)
    ensures first.transactionId == id ==> Spliced(later, id) == later
  {
    PlaceAfterFirst(first, later, id);
    var place := FindIndex(later, id);
    if first.transactionId != id && place >= 0 {
      WithoutPlace([first], later, place);
    }
  }

  lemma PlaceAfterFirst(first: Label, later: seq<Label>, id: string)
    ensures FindIndex([first] + later, id) ==
            if first.transactionId == id then 0 else if FindIndex(later, id) < 0 then -1 else FindIndex(later, id) + 1
    ensures !Has(later, id) ==> FindIndex(later, id) < 0
  {
    assert ([first] + later)[1..] == later;
  }

  lemma WithoutPlace(a: seq<Label>, b: seq<Label>, place: nat)
    requires |a| == 1 && place < |b|
    ensures (a + b)[..place + 1] + (a + b)[place + 2..] == a + (b[..place] + b[place + 1..])
  {
  }

  /** The lines that decide the labels. */
  function DecidingLines(readings: seq<Reading>): seq<nat> {
    if readings == [] then []
    else
      var later := Shifted(DecidingLines(readings[1..]));
      if readings[0].Entry? && !Mentions(readings[1..], readings[0].given.transactionId) then [0] + later else later
  }

  /** Each label comes from the last entry for its transaction, and the labels stand in the order of
      those last entries. */
  lemma {:induction false} LastLineDecides(readings: seq<Reading>)
    ensures var labels, places := LastWins(readings), DecidingLines(readings);
            && |places| == |labels|
            && (forall i | 0 <= i < |places| :: IsLastFor(readings, places[i], labels[i]))
            && (forall i, j | 0 <= i < j < |places| :: places[i] < places[j])
  {
    if readings != [] {
      var rest := readings[1..];
      LastLineDecides(rest);
      var labels, places := LastWins(rest), DecidingLines(rest);
      var later := Shifted(places);
      forall i | 0 <= i < |later| ensures IsLastFor(readings, later[i], labels[i]) {
        LastForAll(readings, places[i], labels[i]);
      }
      if DecidingLines(readings) != later {
        DecidesToo(readings, labels, later);
      }
    }
  }

  lemma DecidesToo(readings: seq<Reading>, labels: seq<Label>, places: seq<nat>)
    requires readings != [] && readings[0].Entry? && !Mentions(readings[1..], readings[0].given.transactionId)
    requires |labels| == |places| && forall i | 0 <= i < |places| :: places[i] > 0 && IsLastFor(readings, places[i], labels[i])
    ensures var more, wider := [readings[0].given] + labels, [0] + places;
            forall i | 0 <= i < |wider| :: IsLastFor(readings, wider[i], more[i])
  {
    assert IsLastFor(readings, 0, readings[0].given);
  }

  lemma LastForAll(readings: seq<Reading>, place: nat, l: Label)
    requires readings != [] && IsLastFor(readings[1..], place, l)
    ensures IsLastFor(readings, place + 1, l)
  {
    assert readings[1..][place + 1..] == readings[place + 2..];
  }

  /** Line `place` reads as this label, and no later line names its transaction. */
  predicate IsLastFor(readings: seq<Reading>, place: nat, l: Label) {
    place < |readings| && readings[place] == Entry(l) && !Mentions(readings[place + 1..], l.transactionId)
  }

  function Shifted(places: seq<nat>): (shifted: seq<nat>)
    ensures |shifted| == |places| && forall i | 0 <= i < |places| :: shifted[i] == places[i] + 1
  {
    if places == [] then [] else [places[0] + 1] + Shifted(places[1..])
  }

  /** Taking the ill-formed lines away changes no label. */
  lemma {:induction false} IllFormedLinesChangeNothing(readings: seq<Reading>)
    ensures LastWins(WellFormed(readings)) == LastWins(readings)
    ensures |WellFormed(readings)| + |Complaints(readings)| == |readings|
  {
    if readings != [] {
      var last := |readings| - 1;
      IllFormedLinesChangeNothing(readings[..last]);
      assert readings == readings[..last] + [readings[last]];
      NextWins(readings[..last], readings[last]);
      if readings[last].Entry? {
        NextWins(WellFormed(readings[..last]), readings[last]);
      } else {
        assert WellFormed(readings) == WellFormed(readings[..last]);
      }
    }
  }

  function WellFormed(readings: seq<Reading>): seq<Reading> {
    if readings == [] then []
    else
      var last := |readings| - 1;
      WellFormed(readings[..last]) + if readings[last].Entry? then [readings[last]] else []
  }

  predicate Ascending(complaints: seq<Complaint>) {
    forall i, j | 0 <= i < j < |complaints| :: complaints[i].line < complaints[j].line
  }

  /** Each complaint quotes the number and the reading of an ill-formed line, in the order of the lines. */
  lemma {:induction false} ComplaintsQuoteTheirLine(readings: seq<Reading>)
    ensures forall c <- Complaints(readings) ::
              0 < c.line <= |readings| && c.about == readings[c.line - 1] && !c.about.Entry?
    ensures forall i | 0 <= i < |readings| && !readings[i].Entry? :: Complaint(i + 1, readings[i]) in Complaints(readings)
    ensures Ascending(Complaints(readings))
  {
    if readings != [] {
      var last := |readings| - 1;
      ComplaintsQuoteTheirLine(readings[..last]);
      var before := Complaints(readings[..last]);
      var cs := Complaints(readings);
      forall i, j | 0 <= i < j < |cs| ensures cs[i].line < cs[j].line {
        assert cs[i] == before[i] && before[i] in before;
        assert j < |before| ==> cs[j] == before[j];
      }
    }
  }

  // Writing labels out and reading them back.

  function Word(isFraud: bool): string {
    if isFraud then "fraud" else "legit"
  }

  /** One line per label. */
  function Written(labels: seq<Label>): string {
    if labels == [] then []
    else labels[0].transactionId + [','] + Word(labels[0].isFraud) + ['\n'] + Written(labels[1..])
  }

  predicate Plain(id: string) {
    id != [] && IsTrimmed(id) && ',' !in id && '\n' !in id
  }

  function Entries(labels: seq<Label>): (readings: seq<Reading>)
    ensures |readings| == |labels| && forall i | 0 <= i < |labels| :: readings[i] == Entry(labels[i])
  {
    if labels == [] then [] else [Entry(labels[0])] + Entries(labels[1..])
  }

  lemma WrittenLineReads(id: string, isFraud: bool, defaultIsFraud: bool)
    requires Plain(id)
    ensures var line := id + [','] + Word(isFraud);
            '\n' !in line && line != [] && IsTrimmed(line) && ReadLine(line, defaultIsFraud) == Entry(Label(id, isFraud))
  {
    var word := Word(isFraud);
    WordReads(isFraud);
    SplitAt(id, ',', word);
    SplitWithout(word, ',');
    assert Split(id + [','] + word, ',') == [id, word];
    assert TrimAll([id, word]) == [id, word];
  }

  lemma WordReads(isFraud: bool)
    ensures var word := Word(isFraud);
            word != [] && IsTrimmed(word) && ',' !in word && '\n' !in word
            && (if isFraud then Lower(word) in FRAUD_WORDS else Lower(word) !in FRAUD_WORDS && Lower(word) in LEGIT_WORDS)
  {
    if isFraud {
      FraudReads();
    } else {
      LegitReads();
    }
  }

  lemma FraudReads()
    ensures IsTrimmed("fraud") && ',' !in "fraud" && '\n' !in "fraud" && Lower("fraud") in FRAUD_WORDS
  {
    LowerKeeps("fraud");
    assert FRAUD_WORDS[1] == "fraud";
  }

  lemma LegitReads()
    ensures IsTrimmed("legit") && ',' !in "legit" && '\n' !in "legit"
    ensures Lower("legit") in LEGIT_WORDS && Lower("legit") !in FRAUD_WORDS
  {
    LowerKeeps("legit");
    assert LEGIT_WORDS[1] == "legit";
    LegitIsNoFraudWord();
  }

  lemma LegitIsNoFraudWord()
    ensures "legit" !in FRAUD_WORDS
  {
    assert forall i | 0 <= i < |FRAUD_WORDS| :: FRAUD_WORDS[i][0] != "legit"[0];
  }

  lemma {:induction false} LowerKeeps(s: string)
    requires forall i | 0 <= i < |s| :: !('A' <= s[i] <= 'Z')
    ensures Lower(s) == s
  {
    if s != [] {
      LowerKeeps(s[1..]);
      assert s == [s[0]] + s[1..];
    }
  }

  lemma {:induction false} WrittenReads(labels: seq<Label>, defaultIsFraud: bool)
    requires forall l <- labels :: Plain(l.transactionId)
    ensures Readings(Written(labels), defaultIsFraud) == Entries(labels)
  {
    if labels == [] {
      assert TrimAll([[]]) == [[]];
    } else {
      var id, isFraud := labels[0].transactionId, labels[0].isFraud;
      var line, rest := id + [','] + Word(isFraud), Written(labels[1..]);
      assert labels[0] in labels;
      WrittenLineReads(id, isFraud, defaultIsFraud);
      WrittenReads(labels[1..], defaultIsFraud);
      SplitAt(line, '\n', rest);
      var pieces := [line] + Split(rest, '\n');
      assert pieces[1..] == Split(rest, '\n');
      assert Written(labels) == line + ['\n'] + rest;
      assert NotBlank(TrimAll(pieces)) == [line] + NotBlank(TrimAll(pieces[1..]));
      assert ([line] + NotBlank(TrimAll(pieces[1..])))[1..] == NotBlank(TrimAll(pieces[1..]));
    }
  }

  /** Labels written one to a line, ids distinct, read back as they were, without complaint. */
  lemma WrittenLabelsReadBack(labels: seq<Label>, defaultIsFraud: bool)
    requires DistinctIds(labels) && forall l <- labels :: Plain(l.transactionId)
    ensures LastWins(Readings(Written(labels), defaultIsFraud)) == labels
    ensures Complaints(Readings(Written(labels), defaultIsFraud)) == []
  {
    WrittenReads(labels, defaultIsFraud);
    DistinctEntriesAllWin(labels);
    NoComplaints(Entries(labels));
  }

  lemma {:induction false} DistinctEntriesAllWin(labels: seq<Label>)
    requires DistinctIds(labels)
    ensures LastWins(Entries(labels)) == labels
  {
    if labels != [] {
      var rest := labels[1..];
      DistinctEntriesAllWin(rest);
      FirstIsNotMentioned(labels);
      FirstWins(Entries(labels));
      assert labels == [labels[0]] + rest;
    }
  }

  lemma FirstWins(readings: seq<Reading>)
    requires readings != [] && readings[0].Entry? && !Mentions(readings[1..], readings[0].given.transactionId)
    ensures LastWins(readings) == [readings[0].given] + LastWins(readings[1..])
  {
  }

  lemma FirstIsNotMentioned(labels: seq<Label>)
    requires labels != [] && DistinctIds(labels)
    ensures Entries(labels)[1..] == Entries(labels[1..])
    ensures !Mentions(Entries(labels)[1..], labels[0].transactionId)
  {
    assert forall i | 1 <= i < |labels| :: Entries(labels)[i] == Entry(labels[i]);
  }

  lemma {:induction false} NoComplaints(readings: seq<Reading>)
    requires forall i | 0 <= i < |readings| :: readings[i].Entry?
    ensures Complaints(readings) == []
  {
    if readings != [] {
      NoComplaints(readings[..|readings| - 1]);
    }
  }

  // ── what single lines say ──────────────────────────────────────

  /** Trimming takes away spaces at both ends and nothing else. */
  lemma {:induction false} TrimTakesSpaces(s: string) returns (i: nat, j: nat)
    ensures i <= j <= |s| && Trim(s) == s[i..j]
    ensures (forall k | 0 <= k < i :: IsSpace(s[k])) && (forall k | j <= k < |s| :: IsSpace(s[k]))
    decreases |s|
  {
    if s != [] && IsSpace(s[0]) {
      var a, b := TrimTakesSpaces(s[1..]);
      i, j := a + 1, b + 1;
      assert s[1..][a..b] == s[i..j];
      assert forall k | 1 <= k < |s| :: s[1..][k - 1] == s[k];
    } else if s != [] && IsSpace(s[|s| - 1]) {
      i, j := TrimTakesSpaces(s[..|s| - 1]);
      assert s[..|s| - 1][i..j] == s[i..j];
    } else {
      i, j := 0, |s|;
    }
  }

  /** Blanks, tabs and line ends are spaces; no visible ASCII character is. */
  lemma SpacesOfAscii(c: char)
    requires c < 128 as char
    ensures IsSpace(c) <==> c == ' ' || c == '\t' || c == '\n' || c == '\r' || c == 11 as char || c == 12 as char
  {
  }

  /** A bare transaction id takes the verdict of the page. */
  lemma BareIdTakesTheDefault(id: string, defaultIsFraud: bool)
    requires Plain(id)
    ensures ReadLine(id, defaultIsFraud) == Entry(Label(id, defaultIsFraud))
  {
    SplitWithout(id, ',');
    assert TrimAll([id]) == [id];
  }

  /** An id and a verdict: four words for fraud and five for legitimate, in either case; an empty
      verdict takes that of the page, and any other is quoted back. */
  lemma VerdictOf(id: string, word: string, defaultIsFraud: bool)
    requires Plain(id) && IsTrimmed(word) && ',' !in word
    ensures ReadLine(id + [','] + word, defaultIsFraud) ==
            if word == "" then Entry(Label(id, defaultIsFraud))
            else if Lower(word) in {"true", "fraud", "1", "yes"} then Entry(Label(id, true))
            else if Lower(word) in {"false", "legit", "legitimate", "0", "no"} then Entry(Label(id, false))
            else UnknownVerdict(word)
  {
    TwoPieces(id, word);
    FraudWords(Lower(word));
    LegitWords(Lower(word));
  }

  lemma TwoPieces(id: string, word: string)
    requires ',' !in id && ',' !in word && IsTrimmed(id) && IsTrimmed(word)
    ensures TrimAll(Split(id + [','] + word, ',')) == [id, word]
  {
    SplitAt(id, ',', word);
    SplitWithout(word, ',');
    assert [id] + [word] == [id, word];
  }

  lemma FraudWords(word: string)
    ensures word in FRAUD_WORDS <==> word in {"true", "fraud", "1", "yes"}
  {
  }

  lemma LegitWords(word: string)
    ensures word in LEGIT_WORDS <==> word in {"false", "legit", "legitimate", "0", "no"}
  {
  }

  /** A line without an id, or with a third part, is ill-formed whatever else it says. */
  lemma IllFormedLines(a: string, b: string, c: string, defaultIsFraud: bool)
    requires ',' !in a && ',' !in b
    ensures Trim(a) == [] ==> ReadLine(a + [','] + b, defaultIsFraud) == Malformed
    ensures ReadLine(a + [','] + b + [','] + c, defaultIsFraud) == Malformed
  {
    SplitAt(a, ',', b);
    assert a + [','] + b + [','] + c == a + [','] + (b + [','] + c);
    SplitAt(a, ',', b + [','] + c);
    SplitAt(b, ',', c);
    assert |Split(a + [','] + b + [','] + c, ',')| > 2;
  }

  /** Blank lines are dropped, all others kept in their order. */
  lemma {:induction false} NotBlankKeepsTheOthers(a: seq<string>, b: seq<string>, line: string)
    ensures NotBlank(a + b) == NotBlank(a) + NotBlank(b)
    ensures NotBlank([line]) == if line == [] then [] else [line]
  {
    assert [line][1..] == [];
    if a == [] {
      assert a + b == b;
    } else {
      assert (a + b)[1..] == a[1..] + b;
      NotBlankKeepsTheOthers(a[1..], b, line);
    }
  }

  /** Lower-casing keeps the length, turns each capital into the letter of its place in the alphabet, and
      leaves everything else alone. */
  lemma {:induction false} LowerByPlace(s: string)
    ensures |Lower(s)| == |s|
    ensures forall i | 0 <= i < |s| && 'A' <= s[i] <= 'Z' :: Lower(s)[i] as int - 'a' as int == s[i] as int - 'A' as int
    ensures forall i | 0 <= i < |s| && !('A' <= s[i] <= 'Z') :: Lower(s)[i] == s[i]
  {
    if s != "" {
      LowerByPlace(s[1..]);
    }
  }
}
