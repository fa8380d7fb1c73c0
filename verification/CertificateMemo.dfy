/** What a parse of a certificate found, kept by the certificate's content, and
    the list drawn through it. */
module CertificateMemo {
  import opened Wrappers
  import opened CertificateCatalogue
  import opened Paging
  import Text

  const FACTS_LIMIT := 4096

  datatype Facts = Facts(subject: string, issuer: string, notAfter: string)

  datatype Value = Parsed(facts: Facts) | Classified(answer: Option<string>)

  /** The parsers and the digests the memo is keyed by. */
  datatype Parsers = Parsers(
    fp: Fingerprint,
    parse: string -> Facts,
    classify: string -> Option<string>,
    digest: string -> string)

  datatype Slot = Slot(key: string, value: Value)

  datatype Ask = FactsAsk(fingerprint: string, pem: string) | PqcAsk(pem: string)

  function KeyOf(w: Parsers, ask: Ask): string
  {
    match ask
    case FactsAsk(f, _) => "fp:" + f
    case PqcAsk(pem) => "pqc:" + w.digest(pem)
  }

  /** What would be answered with no memo. */
  function Direct(w: Parsers, ask: Ask): Value
  {
    match ask
    case FactsAsk(_, pem) => Parsed(w.parse(pem))
    case PqcAsk(pem) => Classified(w.classify(pem))
  }

  /** Facts are asked of catalogue entries, whose fingerprint is their text's. */
  predicate Proper(w: Parsers, ask: Ask)
  {
    ask.FactsAsk? ==> Read(w.fp, ask.pem) == Some(ask.fingerprint)
  }

  function Find(held: seq<Slot>, key: string): Option<Value>
  {
    if held == [] then None
    else if held[0].key == key then Some(held[0].value)
    else Find(held[1..], key)
  }

  /** The oldest go until there is room for one. */
  function Room(held: seq<Slot>): seq<Slot>
  {
    if |held| < FACTS_LIMIT then held else held[|held| - FACTS_LIMIT + 1..]
  }

  function Serve(w: Parsers, held: seq<Slot>, ask: Ask): (seq<Slot>, Value)
  {
    if ask.PqcAsk? && ask.pem == "" then (held, Direct(w, ask))
    else
      var found := Find(held, KeyOf(w, ask));
      if found.Some? then (held, found.value)
      else (Room(held) + [Slot(KeyOf(w, ask), Direct(w, ask))], Direct(w, ask))
  }

  class Memo {
    const w: Parsers
    var held: seq<Slot>

    constructor (w: Parsers)
      ensures this.w == w && held == []
    {
      this.w := w;
      held := [];
    }

    /** Both askings; `map` insertion order is the order of the slots. */
    method Answer(ask: Ask) returns (value: Value)
      modifies this
      ensures (held, value) == Serve(w, old(held), ask)
    {
      if ask.PqcAsk? && ask.pem == "" {
        return Direct(w, ask);
      }
      var key := KeyOf(w, ask);
      var found := Find(held, key);
      if found.Some? {
        return found.value;
      }
      value := Direct(w, ask);
      Remember(key, value);
    }

    method Remember(key: string, value: Value)
      modifies this
      ensures held == Room(old(held)) + [Slot(key, value)]
    {
      var dropped := 0;
      while |held| >= FACTS_LIMIT
        invariant dropped <= |old(held)| && held == old(held)[dropped..]
        invariant dropped > 0 ==> |held| >= FACTS_LIMIT - 1
        decreases |held|
      {
        held := held[1..];
        dropped := dropped + 1;
      }
      held := held + [Slot(key, value)];
    }
  }

  /** Room is made by the oldest alone, and only where four thousand and ninety-six are
      held. */
  lemma RoomIs(held: seq<Slot>)
    ensures |held| < 4096 ==> Room(held) == held
    ensures |held| == 4096 ==> Room(held) == held[1..]
    ensures |held| > 4096 ==> |Room(held)| == 4095 && Room(held) == held[|held| - 4095..]
  {
  }

  /** What was asked is held: the same question again is answered from what is held,
      and nothing is added or dropped by it. */
  lemma AskedIsHeld(w: Parsers, held: seq<Slot>, ask: Ask)
    requires ask.PqcAsk? ==> ask.pem != ""
    ensures var (after, value) := Serve(w, held, ask);
            && (exists slot :: slot in after && slot.key == KeyOf(w, ask) && slot.value == value)
            && Serve(w, after, ask).0 == after
    ensures (exists slot :: slot in held && slot.key == KeyOf(w, ask)) ==> Serve(w, held, ask).0 == held
  {
    var key := KeyOf(w, ask);
    var (after, value) := Serve(w, held, ask);
    FoundIsHeld(held, key);
    FoundIsHeld(after, key);
    if Find(held, key).None? {
      assert after[|after| - 1] == Slot(key, value);
    }
  }

  // ----- when the memo answers what the parse would --------------------------------

  /** Every held answer is the direct one to some question under its key. */
  ghost predicate Sound(w: Parsers, held: seq<Slot>)
  {
    && |held| <= FACTS_LIMIT
    && forall slot :: slot in held ==>
         exists ask :: Proper(w, ask) && Asked(ask) && KeyOf(w, ask) == slot.key && Direct(w, ask) == slot.value
  }

  predicate Asked(ask: Ask)
  {
    ask.PqcAsk? ==> ask.pem != ""
  }

  /** The digests tell apart whatever the parsers tell apart. */
  ghost predicate Respects(w: Parsers)
  {
    && (forall p, q :: Read(w.fp, p).Some? && Read(w.fp, p) == Read(w.fp, q) ==> w.parse(p) == w.parse(q))
    && (forall p, q :: p != "" && q != "" && w.digest(p) == w.digest(q) ==> w.classify(p) == w.classify(q))
  }

  /** The two kinds of key never meet, and one key is one digest. */
  lemma KeysApart(w: Parsers, a: Ask, b: Ask)
    ensures KeyOf(w, a) == KeyOf(w, b) <==>
              || (a.FactsAsk? && b.FactsAsk? && a.fingerprint == b.fingerprint)
              || (a.PqcAsk? && b.PqcAsk? && w.digest(a.pem) == w.digest(b.pem))
  {
    assert KeyOf(w, a)[0] == (if a.FactsAsk? then 'f' else 'p');
    assert KeyOf(w, b)[0] == (if b.FactsAsk? then 'f' else 'p');
    if a.FactsAsk? && b.FactsAsk? {
      assert KeyOf(w, a)[3..] == a.fingerprint && KeyOf(w, b)[3..] == b.fingerprint;
    } else if a.PqcAsk? && b.PqcAsk? {
      assert KeyOf(w, a)[4..] == w.digest(a.pem) && KeyOf(w, b)[4..] == w.digest(b.pem);
    }
  }

  lemma {:induction false} FoundIsHeld(held: seq<Slot>, key: string)
    ensures Find(held, key).Some? ==> Slot(key, Find(held, key).value) in held
    ensures Find(held, key).None? ==> forall slot :: slot in held ==> slot.key != key
  {
    if held != [] {
      FoundIsHeld(held[1..], key);
    }
  }

  lemma ServedRight(w: Parsers, held: seq<Slot>, ask: Ask)
    requires Respects(w) && Sound(w, held) && Proper(w, ask)
    ensures Serve(w, held, ask).1 == Direct(w, ask)
    ensures Sound(w, Serve(w, held, ask).0)
  {
    if Asked(ask) {
      var key := KeyOf(w, ask);
      FoundIsHeld(held, key);
      if Find(held, key).Some? {
        var slot := Slot(key, Find(held, key).value);
        var first :| Proper(w, first) && Asked(first) && KeyOf(w, first) == slot.key && Direct(w, first) == slot.value;
        KeysApart(w, first, ask);
      } else {
        assert forall slot :: slot in Room(held) ==> slot in held;
      }
    }
  }

  function Answers(w: Parsers, held: seq<Slot>, asks: seq<Ask>): seq<Value>
    decreases |asks|
  {
    if asks == [] then [] else [Serve(w, held, asks[0]).1] + Answers(w, Serve(w, held, asks[0]).0, asks[1..])
  }

  function Held(w: Parsers, held: seq<Slot>, asks: seq<Ask>): seq<Slot>
    decreases |asks|
  {
    if asks == [] then held else Held(w, Serve(w, held, asks[0]).0, asks[1..])
  }

  function AllDirect(w: Parsers, asks: seq<Ask>): seq<Value>
  {
    if asks == [] then [] else [Direct(w, asks[0])] + AllDirect(w, asks[1..])
  }

  ghost predicate AllProper(w: Parsers, asks: seq<Ask>)
  {
    forall ask :: ask in asks ==> Proper(w, ask)
  }

  lemma {:induction false} AnsweredRight(w: Parsers, held: seq<Slot>, asks: seq<Ask>)
    requires Respects(w) && Sound(w, held) && AllProper(w, asks)
    ensures Answers(w, held, asks) == AllDirect(w, asks)
    ensures Sound(w, Held(w, held, asks))
    decreases |asks|
  {
    if asks != [] {
      ServedRight(w, held, asks[0]);
      AnsweredRight(w, Serve(w, held, asks[0]).0, asks[1..]);
    }
  }

  lemma {:induction false} NeverMoreThan(w: Parsers, held: seq<Slot>, asks: seq<Ask>)
    requires |held| <= 4096
    ensures |Held(w, held, asks)| <= 4096
    decreases |asks|
  {
    if asks != [] {
      NeverMoreThan(w, Serve(w, held, asks[0]).0, asks[1..]);
    }
  }

  lemma TwoAsks(w: Parsers, a: Ask, b: Ask)
    requires Proper(w, a) && Proper(w, b) && Asked(a) && Asked(b) && KeyOf(w, a) == KeyOf(w, b)
    requires Answers(w, [], [a, b]) == AllDirect(w, [a, b])
    ensures Direct(w, a) == Direct(w, b)
  {
    assert [a, b][1..] == [b];
    var held := Serve(w, [], a).0;
    assert held == [Slot(KeyOf(w, a), Direct(w, a))];
    assert Answers(w, [], [a, b])[1] == Serve(w, held, b).1;
    assert AllDirect(w, [a, b])[1] == Direct(w, b);
  }

  /** Over every sequence of calls the memo answers what the parsers would,
      exactly if the digests tell apart whatever the parsers do. */
  lemma MemoIsExact(w: Parsers)
    ensures Respects(w) <==> forall asks :: AllProper(w, asks) ==> Answers(w, [], asks) == AllDirect(w, asks)
  {
    if Respects(w) {
      forall asks | AllProper(w, asks) ensures Answers(w, [], asks) == AllDirect(w, asks) {
        AnsweredRight(w, [], asks);
      }
    }
    if forall asks :: AllProper(w, asks) ==> Answers(w, [], asks) == AllDirect(w, asks) {
      forall p, q | Read(w.fp, p).Some? && Read(w.fp, p) == Read(w.fp, q) ensures w.parse(p) == w.parse(q) {
        var a, b := FactsAsk(Read(w.fp, p).value, p), FactsAsk(Read(w.fp, p).value, q);
        assert AllProper(w, [a, b]);
        TwoAsks(w, a, b);
      }
      forall p, q | p != "" && q != "" && w.digest(p) == w.digest(q) ensures w.classify(p) == w.classify(q) {
        assert AllProper(w, [PqcAsk(p), PqcAsk(q)]);
        TwoAsks(w, PqcAsk(p), PqcAsk(q));
      }
    }
  }

  // ----- the list, paged before it is parsed -------------------------------------------

  function PlacesOf(appearances: seq<Appearance>): seq<string>
  {
    seq(|appearances|, i requires 0 <= i < |appearances| => appearances[i].place)
  }

  function Labels(appearances: seq<Appearance>): string
  {
    Text.Join(PlacesOf(appearances), ' ')
  }

  /** All a search reads of an entry. */
  function Haystack(w: Parsers, entry: Entry): string
  {
    var facts := w.parse(entry.pem);
    Text.Lower(facts.subject + " " + facts.issuer + " " + Labels(entry.appearances))
  }

  predicate Matches(w: Parsers, entry: Entry, needle: string)
  {
    Text.Contains(Haystack(w, entry), needle)
  }

  function Matching(w: Parsers, entries: seq<Entry>, needle: string): seq<Entry>
  {
    if entries == [] then []
    else
      Matching(w, entries[..|entries| - 1], needle)
      + if Matches(w, entries[|entries| - 1], needle) then [entries[|entries| - 1]] else []
  }

  datatype Row = Row(fingerprint: string, facts: Facts, selfIssued: bool, appearances: seq<Appearance>)

  function RowOf(w: Parsers, entry: Entry): Row
  {
    var facts := w.parse(entry.pem);
    Row(entry.fingerprint, facts, facts.subject != "" && facts.subject == facts.issuer, entry.appearances)
  }

  predicate Own(w: Parsers, entries: seq<Entry>)
  {
    forall e :: e in entries ==> Read(w.fp, e.pem) == Some(e.fingerprint)
  }

  lemma LabelsAreSearched(w: Parsers, entry: Entry, needle: string)
    requires Text.Contains(Text.Lower(Labels(entry.appearances)), needle)
    ensures Matches(w, entry, needle)
  {
    var facts := w.parse(entry.pem);
    var head := facts.subject + " " + facts.issuer + " ";
    Text.LowerConcat(head, Labels(entry.appearances));
    Text.ContainsSuffix(Text.Lower(head), Text.Lower(Labels(entry.appearances)), needle);
  }

  lemma SubjectIsSearched(w: Parsers, entry: Entry, needle: string)
    requires Text.Contains(Text.Lower(w.parse(entry.pem).subject), needle)
    ensures Matches(w, entry, needle)
  {
    var facts := w.parse(entry.pem);
    var tail := " " + facts.issuer + " " + Labels(entry.appearances);
    assert facts.subject + " " + facts.issuer + " " + Labels(entry.appearances) == facts.subject + tail;
    Text.LowerConcat(facts.subject, tail);
    Text.ContainsPrefix(Text.Lower(facts.subject), Text.Lower(tail), needle);
  }

  lemma IssuerIsSearched(w: Parsers, entry: Entry, needle: string)
    requires Text.Contains(Text.Lower(w.parse(entry.pem).issuer), needle)
    ensures Matches(w, entry, needle)
  {
    var facts := w.parse(entry.pem);
    var head, tail := facts.subject + " ", " " + Labels(entry.appearances);
    assert facts.subject + " " + facts.issuer + " " + Labels(entry.appearances) == head + (facts.issuer + tail);
    Text.LowerConcat(head, facts.issuer + tail);
    Text.LowerConcat(facts.issuer, tail);
    Text.ContainsPrefix(Text.Lower(facts.issuer), Text.Lower(tail), needle);
    Text.ContainsSuffix(Text.Lower(head), Text.Lower(facts.issuer) + Text.Lower(tail), needle);
  }

  lemma {:induction false} PlaceIsInLabels(places: seq<string>, i: nat, needle: string)
    requires i < |places| && Text.Contains(Text.Lower(places[i]), needle)
    ensures Text.Contains(Text.Lower(Text.Join(places, ' ')), needle)
  {
    if |places| > 1 {
      var tail := [' '] + Text.Join(places[1..], ' ');
      assert Text.Join(places, ' ') == places[0] + tail;
      Text.LowerConcat(places[0], tail);
      if i == 0 {
        Text.ContainsPrefix(Text.Lower(places[0]), Text.Lower(tail), needle);
      } else {
        PlaceIsInLabels(places[1..], i - 1, needle);
        Text.LowerConcat([' '], Text.Join(places[1..], ' '));
        Text.ContainsSuffix(Text.Lower([' ']), Text.Lower(Text.Join(places[1..], ' ')), needle);
        Text.ContainsSuffix(Text.Lower(places[0]), Text.Lower(tail), needle);
      }
    }
  }

  /** A search finds a certificate by its subject, by its issuer, and by the label of
      any place that holds it. */
  lemma FoundByAnyPart(w: Parsers, entry: Entry, needle: string, i: nat)
    requires i < |entry.appearances|
    requires || Text.Contains(Text.Lower(w.parse(entry.pem).subject), needle)
             || Text.Contains(Text.Lower(w.parse(entry.pem).issuer), needle)
             || Text.Contains(Text.Lower(entry.appearances[i].place), needle)
    ensures Matches(w, entry, needle)
  {
    if Text.Contains(Text.Lower(w.parse(entry.pem).subject), needle) {
      SubjectIsSearched(w, entry, needle);
    } else if Text.Contains(Text.Lower(w.parse(entry.pem).issuer), needle) {
      IssuerIsSearched(w, entry, needle);
    } else {
      PlaceIsInLabels(PlacesOf(entry.appearances), i, needle);
      LabelsAreSearched(w, entry, needle);
    }
  }

  /** The matches of a list are its own, in its order. */
  lemma {:induction false} MatchingConcat(w: Parsers, some: seq<Entry>, more: seq<Entry>, needle: string)
    ensures Matching(w, some + more, needle) == Matching(w, some, needle) + Matching(w, more, needle)
  {
    if more == [] {
      assert some + more == some;
    } else {
      var fewer, last := more[..|more| - 1], more[|more| - 1];
      MatchingConcat(w, some, fewer, needle);
      assert (some + more)[..|some + more| - 1] == some + fewer;
    }
  }

  lemma MatchingOne(w: Parsers, entry: Entry, needle: string)
    ensures Matching(w, [entry], needle) == if Text.Contains(Haystack(w, entry), needle) then [entry] else []
  {
    assert [entry][..0] == [];
  }

  method MatchesThrough(memo: Memo, entry: Entry, needle: string) returns (matches: bool)
    requires Respects(memo.w) && Sound(memo.w, memo.held) && Read(memo.w.fp, entry.pem) == Some(entry.fingerprint)
    modifies memo
    ensures Sound(memo.w, memo.held)
    ensures matches <==> Matches(memo.w, entry, needle)
  {
    var w := memo.w;
    if needle == "" {
      assert Text.FoundAt(Haystack(w, entry), needle, 0);
      return true;
    }
    if Text.Contains(Text.Lower(Labels(entry.appearances)), needle) {
      LabelsAreSearched(w, entry, needle);
      return true;
    }
    var facts := FactsOf(memo, entry);
    matches := Text.Contains(Text.Lower(facts.subject + " " + facts.issuer + " " + Labels(entry.appearances)), needle);
  }

  method FactsOf(memo: Memo, entry: Entry) returns (facts: Facts)
    requires Respects(memo.w) && Sound(memo.w, memo.held) && Read(memo.w.fp, entry.pem) == Some(entry.fingerprint)
    modifies memo
    ensures Sound(memo.w, memo.held) && facts == memo.w.parse(entry.pem)
  {
    var ask := FactsAsk(entry.fingerprint, entry.pem);
    ServedRight(memo.w, memo.held, ask);
    var value := memo.Answer(ask);
    facts := value.facts;
  }

  /** The page of the list: what parsing every certificate, searching all of each
      and then slicing would have shown. */
  method ListView(memo: Memo, entries: seq<Entry>, q: string, askedPer: Option<int>, askedPage: Option<int>)
    returns (rows: seq<Row>, matched: nat, p: Page)
    requires Respects(memo.w) && Sound(memo.w, memo.held) && Own(memo.w, entries)
    modifies memo
    ensures Sound(memo.w, memo.held)
    ensures var all := Matching(memo.w, entries, Text.Lower(q));
            && matched == |all| && 1 <= p.page <= p.pages && 1 <= p.perPage <= MAX_ROWS
            && p.offset == (p.page - 1) * p.perPage && |all| <= p.pages * p.perPage
            && |rows| == |PageAt(all, p.page, p.perPage)|
            && forall i :: 0 <= i < |rows| ==>
                 var entry := PageAt(all, p.page, p.perPage)[i];
                 var facts := memo.w.parse(entry.pem);
                 rows[i] == Row(entry.fingerprint, facts, facts.subject != "" && facts.subject == facts.issuer,
                                entry.appearances)
  {
    var needle, all := Text.Lower(q), [];
    for i := 0 to |entries|
      invariant Sound(memo.w, memo.held)
      invariant all == Matching(memo.w, entries[..i], needle) && (forall e :: e in all ==> e in entries)
    {
      assert entries[..i + 1][..i] == entries[..i];
      assert entries[i] in entries;
      var matches := MatchesThrough(memo, entries[i], needle);
      if matches {
        all := all + [entries[i]];
      }
    }
    assert entries[..|entries|] == entries;
    matched := |all|;
    var shown;
    p, shown := PageOf(all, askedPer, askedPage);
    rows := RowsOf(memo, shown);
  }

  method PageOf(all: seq<Entry>, askedPer: Option<int>, askedPage: Option<int>) returns (p: Page, shown: seq<Entry>)
    ensures 1 <= p.page <= p.pages && 1 <= p.perPage <= MAX_ROWS
    ensures p.offset == (p.page - 1) * p.perPage && |all| <= p.pages * p.perPage
    ensures shown == PageAt(all, p.page, p.perPage) && forall e :: e in shown ==> e in all
  {
    p := PagingOf(askedPer, askedPage, |all|, 0, 0);
    shown := PageAt(all, p.page, p.perPage);
  }

  method RowsOf(memo: Memo, shown: seq<Entry>) returns (rows: seq<Row>)
    requires Respects(memo.w) && Sound(memo.w, memo.held) && Own(memo.w, shown)
    modifies memo
    ensures Sound(memo.w, memo.held)
    ensures |rows| == |shown| && forall i :: 0 <= i < |rows| ==> rows[i] == RowOf(memo.w, shown[i])
  {
    rows := [];
    for i := 0 to |shown|
      invariant Sound(memo.w, memo.held)
      invariant |rows| == i && forall k :: 0 <= k < i ==> rows[k] == RowOf(memo.w, shown[k])
    {
      assert shown[i] in shown;
      var facts := FactsOf(memo, shown[i]);
      var selfIssued := facts.subject != "" && facts.subject == facts.issuer;
      rows := rows + [Row(shown[i].fingerprint, facts, selfIssued, shown[i].appearances)];
    }
  }
}
