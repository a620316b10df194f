/**
 The client address that rate limits are keyed on, read from the forwarded chain. Whether a
 text is an IP address is a parameter, the library's parser.
 */
module ClientIp {
  import opened Wrappers
  import opened Text

  const UNKNOWN_PEER := "test-peer"

  function TrimAll(pieces: seq<string>): (trimmed: seq<string>)
    ensures |trimmed| == |pieces|
  {
    if pieces == [] then [] else [Trim(pieces[0])] + TrimAll(pieces[1..])
  }

  function NonEmpty(pieces: seq<string>): seq<string> {
    if pieces == [] then []
    else (if pieces[0] == "" then [] else [pieces[0]]) + NonEmpty(pieces[1..])
  }

  /** The entries of the header: what stands between the commas, trimmed, blanks left out. */
  function Entries(header: string): seq<string> {
    NonEmpty(TrimAll(Split(header, ',')))
  }

  function FromRight(entries: seq<string>, n: nat): Option<string>
    requires n > 0
  {
    if |entries| < n then None else Some(entries[|entries| - n])
  }

  lemma FromRightIgnoresFront(left: seq<string>, right: seq<string>, n: nat)
    requires 0 < n <= |right|
    ensures FromRight(left + right, n) == FromRight(right, n)
  {
  }

  function PeerText(peer: Option<string>): string {
    if peer.Some? then peer.value else UNKNOWN_PEER
  }

  /** `hops` proxies are trusted; the last one's entry is the last of the header. */
  function Resolve(peer: Option<string>, header: Option<string>, hops: nat, isIp: string -> bool): string {
    if hops == 0 || header.None? then PeerText(peer)
    else
      var candidate := FromRight(Entries(header.value), hops);
      if candidate.Some? && isIp(candidate.value) then candidate.value else PeerText(peer)
  }

  lemma {:induction false} TrimAllBeside(a: seq<string>, b: seq<string>)
    ensures TrimAll(a + b) == TrimAll(a) + TrimAll(b)
  {
    if a == [] {
      assert a + b == b;
    } else {
      assert (a + b)[1..] == a[1..] + b;
      TrimAllBeside(a[1..], b);
    }
  }

  lemma {:induction false} NonEmptyBeside(a: seq<string>, b: seq<string>)
    ensures NonEmpty(a + b) == NonEmpty(a) + NonEmpty(b)
  {
    if a == [] {
      assert a + b == b;
    } else {
      assert (a + b)[1..] == a[1..] + b;
      NonEmptyBeside(a[1..], b);
    }
  }

  /** What stands before a comma adds its entries in front, and changes none behind it. */
  lemma EntriesBeside(left: string, right: string)
    ensures Entries(left + [','] + right) == Entries(left) + Entries(right)
  {
    SplitAround(left, right, ',');
    TrimAllBeside(Split(left, ','), Split(right, ','));
    NonEmptyBeside(TrimAll(Split(left, ',')), TrimAll(Split(right, ',')));
  }

  /** An entry with no white space around it. */
  predicate Bare(entry: string) {
    entry != "" && Trimmed(entry) && ',' !in entry
  }

  lemma BareEntry(entry: string)
    requires Bare(entry)
    ensures Entries(entry) == [entry]
  {
    SplitUnbroken(entry, ',');
    TrimTrimmed(entry);
    assert TrimAll([entry]) == [entry] by { assert TrimAll([entry][1..]) == []; }
    assert NonEmpty([entry]) == [entry] by { assert NonEmpty([entry][1..]) == []; }
  }

  /** A header of `count` copies of one entry. */
  function Copies(entry: string, count: nat): string {
    if count == 0 then "" else Copies(entry, count - 1) + [','] + entry
  }

  lemma {:induction false} CopiesEntries(entry: string, count: nat)
    requires Bare(entry)
    ensures |Entries(Copies(entry, count))| == count
    ensures forall e | e in Entries(Copies(entry, count)) :: e == entry
  {
    if count == 0 {
      assert Split<char>("", ',')[1..] == [];
    } else {
      CopiesEntries(entry, count - 1);
      EntriesBeside(Copies(entry, count - 1), entry);
      BareEntry(entry);
    }
  }

  /** With no more hops than entries, nothing put in front of the header counts. */
  lemma PrependingChangesNothing(peer: Option<string>, header: string, hops: nat, isIp: string -> bool, front: string)
    requires hops <= |Entries(header)|
    ensures Resolve(peer, Some(front + [','] + header), hops, isIp) == Resolve(peer, Some(header), hops, isIp)
  {
    EntriesBeside(front, header);
    if hops > 0 { FromRightIgnoresFront(Entries(front), Entries(header), hops); }
  }

  /** The result is out of the client's hands exactly when the header has at least as many
      entries as hops are trusted; short of that the client can name any address. */
  lemma FrontIsIgnoredIff(peer: Option<string>, header: string, hops: nat, isIp: string -> bool, other: string)
    requires Bare(other) && isIp(other) && other != PeerText(peer)
    ensures (forall front: string ::
               Resolve(peer, Some(front + [','] + header), hops, isIp) == Resolve(peer, Some(header), hops, isIp))
            <==> hops <= |Entries(header)|
  {
    if hops <= |Entries(header)| {
      forall front: string
        ensures Resolve(peer, Some(front + [','] + header), hops, isIp) == Resolve(peer, Some(header), hops, isIp)
      {
        PrependingChangesNothing(peer, header, hops, isIp, front);
      }
    } else {
      var front := Copies(other, hops - |Entries(header)|);
      CopiesEntries(other, hops - |Entries(header)|);
      EntriesBeside(front, header);
      assert Entries(front)[0] in Entries(front);
      assert Resolve(peer, Some(front + [','] + header), hops, isIp) == other;
    }
  }

  lemma {:induction false} EntriesOfJoined(pieces: seq<string>)
    requires pieces != [] && forall p | p in pieces :: ',' !in p && !Blank(p)
    ensures Entries(Join(pieces, ',')) == TrimAll(pieces)
  {
    SplitJoined(pieces, ',');
    NonBlankAreKept(pieces);
  }

  lemma {:induction false} NonBlankAreKept(pieces: seq<string>)
    requires forall p | p in pieces :: !Blank(p)
    ensures NonEmpty(TrimAll(pieces)) == TrimAll(pieces)
  {
    if pieces != [] {
      TrimBlank(pieces[0]);
      NonBlankAreKept(pieces[1..]);
    }
  }

  /** When the header ends in as many non-blank entries as hops are trusted, the first of
      those and the peer decide, whatever stands before them. */
  lemma OnlyTheNthFromTheRightCounts(peer: Option<string>, hops: nat, isIp: string -> bool,
                                     front: Option<string>, last: seq<string>)
    requires hops == |last| > 0 && forall p | p in last :: ',' !in p && !Blank(p)
    ensures var ending := Join(last, ',');
            var header := if front.Some? then front.value + [','] + ending else ending;
            Resolve(peer, Some(header), hops, isIp)
              == if isIp(Trim(last[0])) then Trim(last[0]) else PeerText(peer)
  {
    EntriesOfJoined(last);
    assert FromRight(TrimAll(last), hops) == Some(Trim(last[0]));
    if front.Some? { PrependingChangesNothing(peer, Join(last, ','), hops, isIp, front.value); }
  }

  /** When the header does not decide, the peer does: no trusted hop, no header, or a chain
      shorter than was configured. */
  lemma PeerWhenTheChainIsShort(peer: Option<string>, header: Option<string>, hops: nat, isIp: string -> bool)
    requires hops == 0 || header.None? || |Entries(header.value)| < hops
    ensures Resolve(peer, header, hops, isIp) == if peer.Some? then peer.value else "test-peer"
  {
  }

  /** An entry that is not an IP address gives the peer, too. */
  lemma PeerWhenTheEntryIsNoAddress(peer: Option<string>, header: string, hops: nat, isIp: string -> bool)
    requires 0 < hops <= |Entries(header)| && !isIp(Entries(header)[|Entries(header)| - hops])
    ensures Resolve(peer, Some(header), hops, isIp) == if peer.Some? then peer.value else "test-peer"
  {
  }

  /** Blank entries do not count as hops. */
  lemma BlankEntriesDoNotCount(left: string, blank: string, right: string)
    requires Blank(blank) && ',' !in blank
    ensures Entries(blank) == []
    ensures Entries(left + [','] + blank + [','] + right) == Entries(left) + Entries(right)
  {
    SplitUnbroken(blank, ',');
    TrimBlank(blank);
    assert TrimAll([blank]) == [""] by { assert TrimAll([blank][1..]) == []; }
    assert NonEmpty([""]) == [] by { assert NonEmpty([""][1..]) == []; }
    EntriesBeside(left, blank);
    EntriesBeside(left + [','] + blank, right);
  }

  /** The result is the peer's address or an IP address from the header, nothing else. */
  lemma NeverAnythingButAnAddress(peer: Option<string>, header: Option<string>, hops: nat, isIp: string -> bool)
    ensures var r := Resolve(peer, header, hops, isIp);
            r == PeerText(peer) || (isIp(r) && header.Some? && r in Entries(header.value))
  {
  }
}
