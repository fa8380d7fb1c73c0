/** The catalogue of certificates a realm holds: one entry a certificate, however
    many places hold it, with every place recorded. */
module CertificateCatalogue {
  import opened Basics
  import opened Wrappers
  import Text

  /** One `add`: a certificate's text, where it appears and under what label, and
      the chain it came with. */
  datatype Offer = Offer(pem: string, place: string, where: string, chain: seq<string>)

  datatype Appearance = Appearance(place: string, where: string)

  datatype Entry = Entry(fingerprint: string, pem: string, appearances: seq<Appearance>, chainHint: seq<string>)

  /** The SHA-256 of a certificate's DER, where the text can be read. */
  type Fingerprint = string -> Option<string>

  function Read(fp: Fingerprint, pem: string): Option<string>
  {
    if Text.Contains(pem, "BEGIN CERTIFICATE") then fp(pem) else None
  }

  // ----- a group-by, said plainly -------------------------------------------------

  /** First occurrences, in order. */
  function Distinct<T(==)>(s: seq<T>): seq<T>
  {
    if s == [] then []
    else
      var d := Distinct(s[..|s| - 1]);
      if s[|s| - 1] in d then d else d + [s[|s| - 1]]
  }

  lemma {:induction false} DistinctExact<T(!new)>(s: seq<T>)
    ensures forall x :: x in Distinct(s) <==> x in s
    ensures forall i, j :: 0 <= i < j < |Distinct(s)| ==> Distinct(s)[i] != Distinct(s)[j]
  {
    if s != [] {
      DistinctExact(s[..|s| - 1]);
      assert s == s[..|s| - 1] + [s[|s| - 1]];
    }
  }

  lemma DistinctOneMore<T(!new)>(s: seq<T>, x: T)
    ensures Distinct(s + [x]) == if x in s then Distinct(s) else Distinct(s) + [x]
  {
    assert (s + [x])[..|s|] == s;
    DistinctExact(s);
  }

  lemma {:induction false} DistinctGrows<T(!new)>(s: seq<T>, more: seq<T>)
    ensures Distinct(s) <= Distinct(s + more)
    ensures Distinct(s + more) == Distinct(s) <==> forall x :: x in more ==> x in s
  {
    if more == [] {
      assert s + more == s;
    } else {
      var fewer, last := more[..|more| - 1], more[|more| - 1];
      DistinctGrows(s, fewer);
      DistinctOneMore(s + fewer, last);
      assert s + more == (s + fewer) + [last] && more == fewer + [last];
      assert last in more && (forall x :: x in more <==> x in fewer || x == last);
    }
  }

  function Fingerprints(fp: Fingerprint, offers: seq<Offer>): seq<string>
  {
    if offers == [] then []
    else
      var read := Read(fp, offers[|offers| - 1].pem);
      Fingerprints(fp, offers[..|offers| - 1]) + if read.Some? then [read.value] else []
  }

  function Of(fp: Fingerprint, offers: seq<Offer>, f: string): seq<Offer>
  {
    if offers == [] then []
    else
      var last := offers[|offers| - 1];
      Of(fp, offers[..|offers| - 1], f) + if Read(fp, last.pem) == Some(f) then [last] else []
  }

  function NonEmpty(chain: seq<string>): seq<string>
  {
    if chain == [] then []
    else
      var last := chain[|chain| - 1];
      NonEmpty(chain[..|chain| - 1]) + if last != "" then [last] else []
  }

  function Chains(offers: seq<Offer>): seq<string>
  {
    if offers == [] then [] else Chains(offers[..|offers| - 1]) + NonEmpty(offers[|offers| - 1].chain)
  }

  function Places(offers: seq<Offer>): seq<Appearance>
  {
    seq(|offers|, i requires 0 <= i < |offers| => Appearance(offers[i].place, offers[i].where))
  }

  /** What an entry is: its first text, every place once, and every chain
      certificate once, each in the order they were first offered. */
  function Grouped(f: string, same: seq<Offer>): Entry
    requires same != []
  {
    Entry(f, same[0].pem, Distinct(Places(same)), Distinct(Chains(same)))
  }

  lemma {:induction false} OfAny(fp: Fingerprint, offers: seq<Offer>, f: string)
    ensures Of(fp, offers, f) != [] <==> f in Fingerprints(fp, offers)
    ensures forall o :: o in Of(fp, offers, f) <==> o in offers && Read(fp, o.pem) == Some(f)
  {
    if offers != [] {
      var fewer, last := offers[..|offers| - 1], offers[|offers| - 1];
      OfAny(fp, fewer, f);
      assert offers == fewer + [last];
    }
  }

  lemma {:induction false} OfConcat(fp: Fingerprint, offers: seq<Offer>, more: seq<Offer>, f: string)
    ensures Of(fp, offers + more, f) == Of(fp, offers, f) + Of(fp, more, f)
  {
    if more == [] {
      assert offers + more == offers;
    } else {
      var fewer := more[..|more| - 1];
      OfConcat(fp, offers, fewer, f);
      assert (offers + more)[..|offers + more| - 1] == offers + fewer;
    }
  }

  lemma {:induction false} ChainsConcat(offers: seq<Offer>, more: seq<Offer>)
    ensures Chains(offers + more) == Chains(offers) + Chains(more)
  {
    if more == [] {
      assert offers + more == offers;
    } else {
      var fewer, last := more[..|more| - 1], more[|more| - 1];
      ChainsConcat(offers, fewer);
      ChainsOneMore(offers + fewer, last);
      ChainsOneMore(fewer, last);
      assert more == fewer + [last];
      assert offers + more == (offers + fewer) + [last];
      Associative(Chains(offers), Chains(fewer), NonEmpty(last.chain));
    }
  }

  lemma ChainsOneMore(offers: seq<Offer>, offer: Offer)
    ensures Chains(offers + [offer]) == Chains(offers) + NonEmpty(offer.chain)
  {
    assert (offers + [offer])[..|offers|] == offers;
  }

  lemma OneMoreOffer(fp: Fingerprint, offers: seq<Offer>, offer: Offer, f: string)
    ensures Of(fp, offers + [offer], f) == Of(fp, offers, f) + if Read(fp, offer.pem) == Some(f) then [offer] else []
    ensures Fingerprints(fp, offers + [offer]) ==
            Fingerprints(fp, offers) + if Read(fp, offer.pem).Some? then [Read(fp, offer.pem).value] else []
  {
    assert (offers + [offer])[..|offers|] == offers;
  }

  predicate EntryRight(fp: Fingerprint, offers: seq<Offer>, held: map<string, Entry>, f: string)
  {
    && (f in held <==> Of(fp, offers, f) != [])
    && (f in held ==> held[f] == Grouped(f, Of(fp, offers, f)))
  }

  ghost predicate GroupedBy(fp: Fingerprint, offers: seq<Offer>, held: map<string, Entry>)
  {
    forall f :: EntryRight(fp, offers, held, f)
  }

  /** With one more offer only its own certificate's entry is another. */
  lemma StillRight(fp: Fingerprint, offers: seq<Offer>, offer: Offer, held: map<string, Entry>,
                   after: map<string, Entry>, f: string)
    requires EntryRight(fp, offers, held, f) && Read(fp, offer.pem) != Some(f)
    requires (f in after <==> f in held) && (f in held ==> after[f] == held[f])
    ensures EntryRight(fp, offers + [offer], after, f)
  {
    OneMoreOffer(fp, offers, offer, f);
    assert Of(fp, offers + [offer], f) == Of(fp, offers, f);
  }

  lemma UnreadChangesNothing(fp: Fingerprint, offers: seq<Offer>, offer: Offer, held: map<string, Entry>)
    requires GroupedBy(fp, offers, held) && Read(fp, offer.pem).None?
    ensures GroupedBy(fp, offers + [offer], held)
    ensures Fingerprints(fp, offers + [offer]) == Fingerprints(fp, offers)
  {
    forall f ensures EntryRight(fp, offers + [offer], held, f) {
      assert EntryRight(fp, offers, held, f);
      StillRight(fp, offers, offer, held, held, f);
    }
    OneMoreOffer(fp, offers, offer, "");
  }

  lemma OneEntryChanges(fp: Fingerprint, offers: seq<Offer>, offer: Offer, held: map<string, Entry>, entry: Entry)
    requires GroupedBy(fp, offers, held) && Read(fp, offer.pem).Some?
    requires entry == Grouped(Read(fp, offer.pem).value, Of(fp, offers, Read(fp, offer.pem).value) + [offer])
    ensures GroupedBy(fp, offers + [offer], held[Read(fp, offer.pem).value := entry])
  {
    var own := Read(fp, offer.pem).value;
    var after := held[own := entry];
    forall f ensures EntryRight(fp, offers + [offer], after, f) {
      if f == own {
        OneMoreOffer(fp, offers, offer, f);
      } else {
        assert EntryRight(fp, offers, held, f);
        StillRight(fp, offers, offer, held, after, f);
      }
    }
  }

  lemma InOrder(fp: Fingerprint, offers: seq<Offer>, offer: Offer)
    requires Read(fp, offer.pem).Some?
    ensures var f, order := Read(fp, offer.pem).value, Distinct(Fingerprints(fp, offers));
            Distinct(Fingerprints(fp, offers + [offer])) == if Of(fp, offers, f) != [] then order else order + [f]
  {
    var f := Read(fp, offer.pem).value;
    OneMoreOffer(fp, offers, offer, f);
    OfAny(fp, offers, f);
    DistinctOneMore(Fingerprints(fp, offers), f);
  }

  // ----- the catalogue under construction --------------------------------------------

  class Catalogue {
    const fp: Fingerprint
    var byFingerprint: map<string, Entry>
    var order: seq<string>
    ghost var offers: seq<Offer>

    ghost predicate Valid()
      reads this
    {
      order == Distinct(Fingerprints(fp, offers)) && GroupedBy(fp, offers, byFingerprint)
    }

    constructor (fp: Fingerprint)
      ensures Valid() && this.fp == fp && offers == []
    {
      this.fp := fp;
      byFingerprint, order, offers := map[], [], [];
    }

    method Add(offer: Offer)
      requires Valid()
      modifies this
      ensures Valid() && offers == old(offers) + [offer]
    {
      var read := Read(fp, offer.pem);
      ghost var before := offers;
      offers := offers + [offer];
      if read.None? {
        UnreadChangesNothing(fp, before, offer, byFingerprint);
        return;
      }
      var f := read.value;
      assert EntryRight(fp, before, byFingerprint, f);
      InOrder(fp, before, offer);
      var entry := if f in byFingerprint then byFingerprint[f] else Entry(f, offer.pem, [], []);
      if f !in byFingerprint {
        order := order + [f];
      }
      entry := Joined(entry, offer, Of(fp, before, f));
      OneEntryChanges(fp, before, offer, byFingerprint, entry);
      byFingerprint := byFingerprint[f := entry];
    }

    /** Adds in order. */
    method AddAll(more: seq<Offer>)
      requires Valid()
      modifies this
      ensures Valid() && offers == old(offers) + more
    {
      for i := 0 to |more|
        invariant Valid() && offers == old(offers) + more[..i]
      {
        Add(more[i]);
      }
    }

    method Get(f: string) returns (entry: Option<Entry>)
      requires Valid()
      ensures entry == if Of(fp, offers, f) != []
                       then Some(Grouped(f, Of(fp, offers, f))) else None
    {
      assert EntryRight(fp, offers, byFingerprint, f);
      entry := if f in byFingerprint then Some(byFingerprint[f]) else None;
    }

    method Entries() returns (entries: seq<Entry>)
      requires Valid()
      ensures |entries| == |Distinct(Fingerprints(fp, offers))|
      ensures forall i :: 0 <= i < |entries| ==>
                entries[i] == EntryFor(fp, offers, Distinct(Fingerprints(fp, offers))[i])
    {
      entries := [];
      for i := 0 to |order|
        invariant |entries| == i
        invariant forall k :: 0 <= k < i ==> entries[k] == EntryFor(fp, offers, order[k])
      {
        HeldInOrder(fp, offers, byFingerprint, i);
        entries := entries + [byFingerprint[order[i]]];
      }
    }
  }

  lemma HeldInOrder(fp: Fingerprint, offers: seq<Offer>, held: map<string, Entry>, i: nat)
    requires GroupedBy(fp, offers, held) && i < |Distinct(Fingerprints(fp, offers))|
    ensures var f := Distinct(Fingerprints(fp, offers))[i]; f in held && held[f] == EntryFor(fp, offers, f)
  {
    var order := Distinct(Fingerprints(fp, offers));
    assert order[i] in order;
    DistinctExact(Fingerprints(fp, offers));
    OfAny(fp, offers, order[i]);
    assert EntryRight(fp, offers, held, order[i]);
  }

  function EntryFor(fp: Fingerprint, offers: seq<Offer>, f: string): Entry
  {
    var same := Of(fp, offers, f);
    if same == [] then Entry(f, "", [], []) else Grouped(f, same)
  }

  /** An entry with one more offer of its certificate. */
  method Joined(entry: Entry, offer: Offer, ghost same: seq<Offer>) returns (joined: Entry)
    requires same != [] ==> entry == Grouped(entry.fingerprint, same)
    requires same == [] ==> entry == Entry(entry.fingerprint, offer.pem, [], [])
    ensures joined == Grouped(entry.fingerprint, same + [offer])
  {
    joined := entry;
    var place := Appearance(offer.place, offer.where);
    DistinctOneMore(Places(same), place);
    assert Places(same + [offer]) == Places(same) + [place];
    if place !in joined.appearances {
      joined := joined.(appearances := joined.appearances + [place]);
    }
    var chain := WithChain(joined.chainHint, offer.chain, Chains(same));
    assert (same + [offer])[..|same|] == same;
    joined := joined.(chainHint := chain);
  }

  lemma NonEmptyOneMore(chain: seq<string>, one: string)
    ensures NonEmpty(chain + [one]) == NonEmpty(chain) + if one != "" then [one] else []
  {
    assert (chain + [one])[..|chain|] == chain;
  }

  function IfAny(one: string): seq<string>
  {
    if one != "" then [one] else []
  }

  lemma ChainOneMore(earlier: seq<string>, chain: seq<string>, i: nat)
    requires i < |chain|
    ensures earlier + NonEmpty(chain[..i + 1]) == earlier + NonEmpty(chain[..i]) + IfAny(chain[i])
  {
    assert chain[..i + 1] == chain[..i] + [chain[i]];
    NonEmptyOneMore(chain[..i], chain[i]);
    Associative(earlier, NonEmpty(chain[..i]), IfAny(chain[i]));
  }

  method WithOne(hint: seq<string>, one: string, ghost earlier: seq<string>) returns (all: seq<string>)
    requires hint == Distinct(earlier)
    ensures all == Distinct(earlier + IfAny(one))
  {
    all := hint;
    if one != "" {
      DistinctOneMore(earlier, one);
      DistinctExact(earlier);
      if one !in hint {
        all := hint + [one];
      }
    } else {
      assert earlier + [] == earlier;
    }
  }

  method WithChain(hint: seq<string>, chain: seq<string>, ghost earlier: seq<string>) returns (all: seq<string>)
    requires hint == Distinct(earlier)
    ensures all == Distinct(earlier + NonEmpty(chain))
  {
    all := hint;
    assert chain[..0] == [] && earlier + NonEmpty([]) == earlier;
    for i := 0 to |chain|
      invariant all == Distinct(earlier + NonEmpty(chain[..i]))
    {
      all := WithOne(all, chain[i], earlier + NonEmpty(chain[..i]));
      ChainOneMore(earlier, chain, i);
    }
    assert chain[..|chain|] == chain;
  }

  // ----- what an entry holds --------------------------------------------------------

  /** The offer is of this certificate: its text is marked as one and reads as it. */
  predicate IsOf(fp: Fingerprint, offer: Offer, f: string)
  {
    Text.Contains(offer.pem, "BEGIN CERTIFICATE") && fp(offer.pem) == Some(f)
  }

  lemma {:induction false} FirstOfThem(fp: Fingerprint, offers: seq<Offer>, f: string) returns (first: nat)
    requires Of(fp, offers, f) != []
    ensures first < |offers| && IsOf(fp, offers[first], f) && Of(fp, offers, f)[0] == offers[first]
    ensures forall i :: 0 <= i < first ==> !IsOf(fp, offers[i], f)
  {
    var fewer, last := offers[..|offers| - 1], offers[|offers| - 1];
    OneMoreOffer(fp, fewer, last, f);
    assert fewer + [last] == offers;
    if Of(fp, fewer, f) != [] {
      first := FirstOfThem(fp, fewer, f);
    } else {
      first := |offers| - 1;
      OfAny(fp, fewer, f);
      forall i | 0 <= i < first ensures !IsOf(fp, offers[i], f) {
        assert fewer[i] in fewer;
      }
    }
  }

  lemma {:induction false} NonEmptyAre(chain: seq<string>)
    ensures forall c :: c in NonEmpty(chain) <==> c in chain && c != ""
  {
    if chain != [] {
      NonEmptyAre(chain[..|chain| - 1]);
      assert chain == chain[..|chain| - 1] + [chain[|chain| - 1]];
    }
  }

  lemma {:induction false} ChainsAre(offers: seq<Offer>)
    ensures forall c :: c in Chains(offers) <==> c != "" && exists o :: o in offers && c in o.chain
  {
    if offers != [] {
      var fewer, last := offers[..|offers| - 1], offers[|offers| - 1];
      ChainsAre(fewer);
      NonEmptyAre(last.chain);
      assert offers == fewer + [last];
      assert forall o :: o in offers <==> o in fewer || o == last;
    }
  }

  /** A certificate's entry, said of the offers: it is there if one of them is of it,
      with the first one's text, every place any of them names, every certificate in
      any of their chains, and nothing twice. */
  lemma EntryHolds(fp: Fingerprint, offers: seq<Offer>, f: string)
    requires Of(fp, offers, f) != []
    ensures var entry := Grouped(f, Of(fp, offers, f));
            && entry.fingerprint == f
            && (exists i :: 0 <= i < |offers| && IsOf(fp, offers[i], f) && entry.pem == offers[i].pem
                            && forall j :: 0 <= j < i ==> !IsOf(fp, offers[j], f))
            && (forall x :: x in entry.appearances <==>
                  exists o :: o in offers && IsOf(fp, o, f) && x == Appearance(o.place, o.where))
            && (forall c :: c in entry.chainHint <==>
                  c != "" && exists o :: o in offers && IsOf(fp, o, f) && c in o.chain)
            && Once(entry.appearances) && Once(entry.chainHint)
  {
    var same := Of(fp, offers, f);
    var first := FirstOfThem(fp, offers, f);
    OfAny(fp, offers, f);
    PlacesAre(same);
    ChainsAre(same);
    DistinctExact(Places(same));
    DistinctExact(Chains(same));
  }

  ghost predicate Once<T>(s: seq<T>)
  {
    forall i, j :: 0 <= i < j < |s| ==> s[i] != s[j]
  }

  lemma ThereIfOffered(fp: Fingerprint, offers: seq<Offer>, f: string)
    ensures Of(fp, offers, f) != [] <==> exists o :: o in offers && IsOf(fp, o, f)
  {
    OfAny(fp, offers, f);
    if Of(fp, offers, f) != [] {
      assert Of(fp, offers, f)[0] in Of(fp, offers, f);
    }
    if o :| o in offers && IsOf(fp, o, f) {
      assert o in Of(fp, offers, f);
    }
  }

  // ----- the lookup in two stages ------------------------------------------------------

  /** The authorities first, and the holders only for a certificate that is not
      one of theirs. */
  method Lookup(fp: Fingerprint, authorities: seq<Offer>, holders: seq<Offer>, f: string) returns (entry: Option<Entry>)
    ensures entry.Some? <==> exists o :: o in authorities + holders && Read(fp, o.pem) == Some(f)
    ensures entry.Some? ==> Of(fp, authorities + holders, f) != []
    ensures entry.Some? ==>
              (entry.value ==
               Grouped(f, if Of(fp, authorities, f) != [] then Of(fp, authorities, f)
                          else Of(fp, authorities + holders, f)))
  {
    var catalogue := new Catalogue(fp);
    catalogue.AddAll(authorities);
    assert [] + authorities == authorities;
    OfAny(fp, authorities, f);
    OfAny(fp, authorities + holders, f);
    OfConcat(fp, authorities, holders, f);
    entry := catalogue.Get(f);
    if entry.None? {
      catalogue.AddAll(holders);
      entry := catalogue.Get(f);
    }
    if o :| o in authorities + holders && Read(fp, o.pem) == Some(f) {
      assert o in Of(fp, authorities + holders, f);
    }
    if Of(fp, authorities + holders, f) != [] {
      assert Of(fp, authorities + holders, f)[0] in Of(fp, authorities + holders, f);
    }
  }

  /** What the two stages answer beside what one full catalogue would: the same
      certificate, with a first part of its places and chain; all of them exactly
      when no holder shows an authority's certificate somewhere new. */
  lemma StagesAgree(fp: Fingerprint, authorities: seq<Offer>, holders: seq<Offer>, f: string)
    requires Of(fp, authorities, f) != []
    ensures Of(fp, authorities + holders, f) != []
    ensures var staged := Grouped(f, Of(fp, authorities, f));
            var full := Grouped(f, Of(fp, authorities + holders, f));
            && FirstPartOf(staged, full)
            && (staged == full <==> AddsNothing(staged, Of(fp, holders, f)))
  {
    OfConcat(fp, authorities, holders, f);
    GroupsAgree(f, Of(fp, authorities, f), Of(fp, holders, f));
  }

  const AUTHORITY := Appearance("Service Root CA", "pki")
  const PERSON := Appearance("Person", "persons")

  function Offered(pem: string, shown: Appearance): Offer
  {
    Offer(pem, shown.place, shown.where, [])
  }

  lemma OneOffer(fp: Fingerprint, offer: Offer, f: string)
    requires Read(fp, offer.pem) == Some(f)
    ensures Of(fp, [offer], f) == [offer]
  {
    OneMoreOffer(fp, [], offer, f);
    assert [] + [offer] == [offer];
  }

  lemma OnePlace(pem: string)
    ensures Distinct(Places([Offered(pem, AUTHORITY)])) == [AUTHORITY]
    ensures PERSON !in [AUTHORITY]
  {
    assert Places([Offered(pem, AUTHORITY)]) == [AUTHORITY];
    DistinctOneMore([], AUTHORITY);
    assert [] + [AUTHORITY] == [AUTHORITY];
    assert AUTHORITY.place[0] != PERSON.place[0];
  }

  lemma PersonIsNew(pem: string, f: string)
    ensures !AddsNothing(Grouped(f, [Offered(pem, AUTHORITY)]), [Offered(pem, PERSON)])
  {
    OnePlace(pem);
    var holder := Offered(pem, PERSON);
    assert holder in [holder];
  }

  /** A person's certificate that is an authority's too is shown without the
      person. */
  lemma HolderNotShown(fp: Fingerprint, pem: string, f: string)
    requires Read(fp, pem) == Some(f)
    ensures var authorities, holders := [Offered(pem, AUTHORITY)], [Offered(pem, PERSON)];
            && Of(fp, authorities, f) != [] && Of(fp, authorities + holders, f) != []
            && Grouped(f, Of(fp, authorities, f)) != Grouped(f, Of(fp, authorities + holders, f))
  {
    OneOffer(fp, Offered(pem, AUTHORITY), f);
    OneOffer(fp, Offered(pem, PERSON), f);
    PersonIsNew(pem, f);
    StagesAgree(fp, [Offered(pem, AUTHORITY)], [Offered(pem, PERSON)], f);
  }

  /** There is such a text. */
  lemma ThereIsOne()
    ensures exists fp: Fingerprint, pem: string, f: string :: Read(fp, pem) == Some(f)
  {
    var fp: Fingerprint, pem := (text: string) => Some("f"), "BEGIN CERTIFICATE";
    assert Text.FoundAt(pem, "BEGIN CERTIFICATE", 0);
    assert Read(fp, pem) == Some("f");
  }

  predicate FirstPartOf(some: Entry, all: Entry)
  {
    && some.fingerprint == all.fingerprint && some.pem == all.pem
    && some.appearances <= all.appearances && some.chainHint <= all.chainHint
  }

  predicate AddsNothing(entry: Entry, offers: seq<Offer>)
  {
    && (forall o :: o in offers ==> Appearance(o.place, o.where) in entry.appearances)
    && (forall c :: c in Chains(offers) ==> c in entry.chainHint)
  }

  lemma GroupsAgree(f: string, own: seq<Offer>, theirs: seq<Offer>)
    requires own != []
    ensures FirstPartOf(Grouped(f, own), Grouped(f, own + theirs))
    ensures Grouped(f, own) == Grouped(f, own + theirs) <==> AddsNothing(Grouped(f, own), theirs)
  {
    var places, chains := Places(own), Chains(own);
    assert Places(own + theirs) == places + Places(theirs);
    ChainsConcat(own, theirs);
    DistinctGrows(places, Places(theirs));
    DistinctGrows(chains, Chains(theirs));
    DistinctExact(places);
    DistinctExact(chains);
    PlacesAre(theirs);
    assert (own + theirs)[0] == own[0];
  }

  lemma PlacesAre(offers: seq<Offer>)
    ensures forall x :: x in Places(offers) <==> exists o :: o in offers && Appearance(o.place, o.where) == x
  {
    forall o | o in offers ensures Appearance(o.place, o.where) in Places(offers) {
      var i :| 0 <= i < |offers| && offers[i] == o;
      assert Places(offers)[i] in Places(offers);
    }
  }
}
