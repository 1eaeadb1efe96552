/** Downloading a peer's headers twice: commitments first, then the headers themselves. */
module HeadersSync {
  import opened HeaderChains

  datatype State = PRESYNC | REDOWNLOAD | FINAL

  datatype ProcessingResult = ProcessingResult(powValidatedHeaders: seq<Header>, success: bool, requestMore: bool)

  /** The buffer holds the headers after the released ones, and the released ones the hash before it. */
  ghost predicate Buffered(p: Sync, accepted: seq<Header>, released: seq<Header>, buffer: seq<CompressedHeader>) {
    released <= accepted && |buffer| == |accepted| - |released|
    && forall i | 0 <= i < |buffer| :: buffer[i] == Compress(accepted[|released| + i])
  }

  /** A header leaves the buffer only under a full buffer, or once the work suffices. */
  ghost predicate Deserved(p: Sync, accepted: seq<Header>, released: seq<Header>) {
    |released| + p.bufferSize <= |accepted| || released == [] || Enough(p, accepted)
  }

  lemma BufferedAppend(p: Sync, accepted: seq<Header>, released: seq<Header>, buffer: seq<CompressedHeader>, h: Header)
    requires Buffered(p, accepted, released, buffer)
    ensures Buffered(p, accepted + [h], released, buffer + [Compress(h)])
  {
  }

  /** The front of the buffer, with the hash of the last released header, is the next accepted header. */
  lemma BufferedFront(p: Sync, accepted: seq<Header>, released: seq<Header>, buffer: seq<CompressedHeader>)
    requires Linked(p, accepted) && Buffered(p, accepted, released, buffer) && buffer != []
    ensures var h := GetFullHeader(buffer[0], p.hash(Tip(p, released)));
            h == accepted[|released|] && Buffered(p, accepted, released + [h], buffer[1..])
  {
    var n := |released|;
    assert accepted[..n] == released;
    var h := GetFullHeader(buffer[0], p.hash(Tip(p, released)));
    assert h == accepted[n];
    assert accepted[..n + 1] == released + [h];
  }

  lemma BufferedAll(p: Sync, accepted: seq<Header>, released: seq<Header>, buffer: seq<CompressedHeader>)
    requires Buffered(p, accepted, released, buffer) && buffer == []
    ensures released == accepted
  {
  }

  /** What holds of the headers taken in each phase and handed out, in every state. The difficulty of
      a header that meets an empty buffer is compared with that of the block to build on: that is the
      first header, or with a buffer size of zero the first of every batch. */
  ghost predicate Chains(p: Sync, seen: seq<Header>, accepted: seq<Header>, released: seq<Header>, resets: set<nat>)
    requires p.period > 0
  {
    && Linked(p, seen) && Difficulties(p, seen)
    && Linked(p, accepted) && Verified(p, seen, accepted)
    && DifficultiesFrom(p, accepted, resets) && (forall i | i in resets :: i < |accepted|)
       && (p.bufferSize > 0 ==> resets <= {0})
    && released <= accepted && (accepted != [] ==> Enough(p, seen))
  }

  ghost predicate Redownloading(p: Sync, seen: seq<Header>, accepted: seq<Header>, released: seq<Header>,
                                buffer: seq<CompressedHeader>, all: bool, commitments: seq<bool>)
    requires p.period > 0
  {
    && Enough(p, seen) && Buffered(p, accepted, released, buffer)
    && all == (accepted != [] && Enough(p, accepted))
    && (!all ==> commitments == Recorded(p, seen, |accepted|))
  }

  /** The hashes, height and work kept beside the buffer. */
  ghost predicate Tracked(p: Sync, accepted: seq<Header>, released: seq<Header>,
                          firstPrev: nat, lastHash: nat, lastHeight: int, work: nat)
  {
    && firstPrev == p.hash(Tip(p, released)) && lastHash == p.hash(Tip(p, accepted))
    && lastHeight == p.startHeight + |accepted| && work == Work(p, accepted)
  }

  class HeadersSyncState {
    const p: Sync
    var state: State
    // PRESYNC
    var chainWork: nat
    var lastHeader: Header
    var height: int
    var commitments: seq<bool>
    // REDOWNLOAD
    var buffer: seq<CompressedHeader>
    var bufferLastHeight: int
    var bufferLastHash: nat
    var bufferFirstPrevHash: nat
    var redownloadWork: nat
    var processAll: bool
    // The headers taken in each phase, and those handed out
    ghost var seen: seq<Header>
    ghost var accepted: seq<Header>
    ghost var released: seq<Header>
    // The accepted headers whose difficulty was compared with that of the block to build on
    ghost var resets: set<nat>

    ghost predicate PresyncOk()
      reads this
      requires p.period > 0
    {
      && accepted == [] && released == [] && buffer == [] && !processAll
      && chainWork == Work(p, seen) && lastHeader == Tip(p, seen) && height == p.startHeight + |seen|
      && commitments == Recorded(p, seen, 0)
    }

    ghost predicate RedownloadOk()
      reads this
      requires p.period > 0
    {
      Redownloading(p, seen, accepted, released, buffer, processAll, commitments)
      && Tracked(p, accepted, released, bufferFirstPrevHash, bufferLastHash, bufferLastHeight, redownloadWork)
    }

    ghost predicate ChainsOk()
      reads this
      requires p.period > 0
    {
      Chains(p, seen, accepted, released, resets)
    }

    ghost predicate Inv()
      reads this
    {
      && Proper(p) && ChainsOk()
      && (state == PRESYNC ==> PresyncOk())
      && (state == REDOWNLOAD ==> RedownloadOk())
    }

    /** What holds between calls: memory is bounded too, and what was handed out was deserved. */
    ghost predicate Valid()
      reads this
    {
      && Inv() && |commitments| <= p.maxCommitments && |buffer| <= p.bufferSize
      && Deserved(p, accepted, released)
      && (state == REDOWNLOAD ==> !processAll && (buffer == [] && p.bufferSize > 0 ==> accepted == []))
    }

    constructor (sync: Sync)
      requires Proper(sync)
      ensures Valid() && p == sync && state == PRESYNC && seen == [] && released == []
    {
      p := sync;
      state := PRESYNC;
      chainWork := sync.startWork;
      lastHeader := sync.start;
      height := sync.startHeight;
      commitments := [];
      buffer := [];
      bufferLastHeight, bufferLastHash, bufferFirstPrevHash := 0, 0, 0;
      redownloadWork := 0;
      processAll := false;
      seen, accepted, released, resets := [], [], [], {};
    }

    method Finalize()
      requires Proper(p) && ChainsOk() && Deserved(p, accepted, released)
      modifies this
      ensures Valid() && state == FINAL && seen == old(seen) && accepted == old(accepted) && released == old(released)
      ensures resets == old(resets)
    {
      commitments := [];
      lastHeader := Header(0, 0, 0, 0, 0, 0);
      buffer := [];
      bufferLastHash, bufferFirstPrevHash := 0, 0;
      processAll := false;
      height := 0;
      state := FINAL;
    }

    /** PRESYNC: takes one more header that connects, unless its difficulty is not permitted or
        there are too many commitments. */
    method ValidateAndProcessSingleHeader(h: Header) returns (ok: bool)
      requires Inv() && state == PRESYNC && |commitments| <= p.maxCommitments && h.prev == p.hash(Tip(p, seen))
      modifies this
      ensures Proper(p) && ChainsOk() && state == PRESYNC && accepted == old(accepted) && released == old(released)
      ensures ok ==> Inv() && |commitments| <= p.maxCommitments && seen == old(seen) + [h]
      ensures !ok ==> seen == old(seen)
      ensures ok <==> p.permitted(old(height) + 1, old(lastHeader).bits, h.bits)
                      && |Recorded(p, old(seen) + [h], 0)| <= p.maxCommitments
    {
      hide Linked, Difficulties, Recorded, Tip, Work, Verified;
      var next := height + 1;
      RecordedAppend(p, seen, h, 0);
      if !p.permitted(next, lastHeader.bits, h.bits) {
        return false;
      }
      if next % p.period == p.offset {
        commitments := commitments + [Bit(p, h)];
        if |commitments| > p.maxCommitments {
          return false;
        }
      }
      chainWork := chainWork + p.proof(h.bits);
      LinkedAppend(p, seen, h);
      DifficultiesAppend(p, seen, h);
      WorkAppend(p, seen, h);
      TipAppend(p, seen, h);
      VerifiedNothing(p, seen + [h]);
      seen := seen + [h];
      lastHeader := h;
      height := next;
      ok := true;
    }

    /** Compares the header with the next recorded bit, where there is to be one. */
    method CheckCommitment(next: int, h: Header) returns (ok: bool)
      requires p.period > 0 && next == p.startHeight + |accepted| + 1
      requires !processAll ==> commitments == Recorded(p, seen, |accepted|)
      modifies this`commitments
      ensures ok <==> (!processAll && Commits(p, |accepted|) ==> |accepted| < |seen|
                                                                 && Bit(p, h) == Bit(p, seen[|accepted|]))
      ensures ok && !processAll ==> commitments == Recorded(p, seen, |accepted| + 1)
      ensures |commitments| <= old(|commitments|)
    {
      hide Recorded, Bit, Commits;
      RecordedFront(p, seen, |accepted|);
      CommitsAt(p, |accepted|);
      if !processAll && next % p.period == p.offset {
        if |commitments| == 0 {
          return false;
        }
        var expected := commitments[0];
        commitments := commitments[1..];
        if Bit(p, h) != expected {
          return false;
        }
      }
      ok := true;
    }

    /** REDOWNLOAD: whether a header is acceptable, counting its work and using up its commitment. */
    method CheckRedownloadedHeader(h: Header) returns (ok: bool)
      requires p.period > 0 && RedownloadOk()
      modifies this`redownloadWork, this`processAll, this`commitments
      ensures ok <==> Acceptable(p, seen, accepted, PreviousBits(p, buffer), h)
      ensures ok ==> redownloadWork == Work(p, accepted + [h]) && processAll == Enough(p, accepted + [h])
                     && (!processAll ==> commitments == Recorded(p, seen, |accepted| + 1))
      ensures |commitments| <= old(|commitments|)
    {
      hide Redownloading, Buffered, Tip, Work, Commits, Bit, Recorded;
      RedownloadFacts(p, seen, accepted, released, buffer, processAll, commitments, h);
      var next := bufferLastHeight + 1;
      if h.prev != bufferLastHash {
        return false;
      }
      if !p.permitted(next, PreviousBits(p, buffer), h.bits) {
        return false;
      }
      redownloadWork := redownloadWork + p.proof(h.bits);
      if redownloadWork >= p.minimumWork {
        processAll := true;
      }
      ok := CheckCommitment(next, h);
    }

    /** REDOWNLOAD: takes one more header into the buffer exactly if it is acceptable. */
    method ValidateAndStoreRedownloadedHeader(h: Header) returns (ok: bool)
      requires Inv() && state == REDOWNLOAD && |commitments| <= p.maxCommitments
      requires buffer == [] && p.bufferSize > 0 ==> accepted == []
      modifies this
      ensures Proper(p) && ChainsOk() && state == REDOWNLOAD && seen == old(seen) && released == old(released)
      ensures ok <==> Acceptable(p, seen, old(accepted), PreviousBits(p, old(buffer)), h)
      ensures ok ==> Inv() && |commitments| <= p.maxCommitments && accepted == old(accepted) + [h]
                     && buffer == old(buffer) + [Compress(h)]
                     && resets == if old(buffer) == [] then old(resets) + {|old(accepted)|} else old(resets)
      ensures !ok ==> accepted == old(accepted)
    {
      hide Chains, Redownloading, Tip, Work, Enough, Recorded, Compress, Acceptable;
      RedownloadFacts(p, seen, accepted, released, buffer, processAll, commitments, h);
      ok := CheckRedownloadedHeader(h);
      if ok {
        AcceptedNext(p, seen, accepted, released, buffer, h, processAll, commitments, resets);
        buffer, accepted, resets, bufferLastHeight, bufferLastHash :=
          buffer + [Compress(h)], accepted + [h], if buffer == [] then resets + {|accepted|} else resets,
          bufferLastHeight + 1, p.hash(h);
      }
    }

    /** Releases headers while the buffer is over its limit, or all of them once the work suffices. */
    method PopHeadersReadyForAcceptance() returns (ret: seq<Header>)
      requires Inv() && state == REDOWNLOAD && Deserved(p, accepted, released)
      modifies this`buffer, this`bufferFirstPrevHash, this`released
      ensures Inv() && Deserved(p, accepted, released) && released == old(released) + ret
      ensures if processAll then buffer == [] && released == accepted
              else |buffer| == if old(|buffer|) > p.bufferSize then p.bufferSize else old(|buffer|)
    {
      hide Chains, Redownloading, Tip, Work, Deserved, GetFullHeader;
      ret := [];
      RedownloadEnd(p, seen, accepted, released, buffer, processAll, commitments);
      while |buffer| > p.bufferSize || (|buffer| > 0 && processAll)
        invariant Inv() && released == old(released) + ret && |buffer| == |accepted| - |released|
        invariant Deserved(p, accepted, released)
        invariant !processAll ==> |buffer| >= if old(|buffer|) > p.bufferSize then p.bufferSize else old(|buffer|)
        invariant |buffer| <= old(|buffer|)
        decreases |buffer|
      {
        ReleaseNext(p, seen, accepted, released, buffer, processAll, commitments, resets);
        var h := GetFullHeader(buffer[0], bufferFirstPrevHash);
        ret := ret + [h];
        buffer, bufferFirstPrevHash, released := buffer[1..], p.hash(h), released + [h];
        RedownloadEnd(p, seen, accepted, released, buffer, processAll, commitments);
      }
      if processAll {
        AllReleased(p, seen, accepted, released, buffer, processAll, commitments);
      }
    }

    /** PRESYNC: takes the headers of a connecting batch one by one until one fails. */
    method ProcessHeaders(headers: seq<Header>) returns (ok: bool)
      requires Inv() && state == PRESYNC && |commitments| <= p.maxCommitments
      requires headers != [] && Continuous(p, headers) && headers[0].prev == p.hash(Tip(p, seen))
      modifies this
      ensures Proper(p) && ChainsOk() && state == PRESYNC && accepted == old(accepted) && released == old(released)
      ensures ok ==> Inv() && |commitments| <= p.maxCommitments && seen == old(seen) + headers
      ensures ok <==> Difficulties(p, old(seen) + headers) && |Recorded(p, old(seen) + headers, 0)| <= p.maxCommitments
    {
      hide Recorded, Work, Tip, Continuous, Difficulties, Chains;
      ghost var before := seen;
      var i := 0;
      while i < |headers|
        invariant i <= |headers| && Inv() && state == PRESYNC && |commitments| <= p.maxCommitments
        invariant seen == before + headers[..i] && accepted == old(accepted) && released == old(released)
      {
        BatchNext(p, before, headers, i);
        var fine := ValidateAndProcessSingleHeader(headers[i]);
        if !fine {
          return false;
        }
        i := i + 1;
      }
      assert headers[..i] == headers;
      ChainsSeen(p, seen, accepted, released, resets);
      ok := true;
    }

    /** PRESYNC: takes a batch that connects, and turns to REDOWNLOAD when the work suffices. */
    method ValidateAndStoreHeadersCommitments(headers: seq<Header>) returns (ok: bool)
      requires Valid() && state == PRESYNC && headers != [] && Continuous(p, headers)
      modifies this
      ensures ok ==> Valid() && seen == old(seen) + headers
                     && state == (if Enough(p, seen) then REDOWNLOAD else PRESYNC)
      ensures !ok ==> Proper(p) && ChainsOk()
      ensures accepted == [] && released == []
      ensures ok <==> headers[0].prev == p.hash(Tip(p, old(seen))) && Difficulties(p, old(seen) + headers)
                      && |Recorded(p, old(seen) + headers, 0)| <= p.maxCommitments
    {
      hide Recorded, Work, Tip, Continuous, Difficulties, Chains, Redownloading, Tracked;
      if headers[0].prev != p.hash(lastHeader) {
        return false;
      }
      ok := ProcessHeaders(headers);
      if ok && chainWork >= p.minimumWork {
        RedownloadStart(p, seen);
        buffer := [];
        bufferLastHeight := p.startHeight;
        bufferFirstPrevHash := p.hash(p.start);
        bufferLastHash := p.hash(p.start);
        redownloadWork := p.startWork;
        state := REDOWNLOAD;
      }
    }

    /** REDOWNLOAD: takes the headers of a batch one by one until one is not acceptable. */
    method StoreRedownloadedHeaders(headers: seq<Header>) returns (ok: bool)
      requires Valid() && state == REDOWNLOAD
      modifies this
      ensures Proper(p) && ChainsOk() && state == REDOWNLOAD && seen == old(seen) && released == old(released)
      ensures Deserved(p, accepted, released)
      ensures ok ==> Inv() && |commitments| <= p.maxCommitments && accepted == old(accepted) + headers
                     && (headers != [] ==> buffer != [])
                     && resets == if headers != [] && old(buffer) == [] then old(resets) + {|old(accepted)|}
                        else old(resets)
      ensures ok <==> AllAcceptable(p, seen, old(accepted), PreviousBits(p, old(buffer)), headers)
    {
      hide Redownloading, Tracked, Chains, Recorded, Deserved, Acceptable, AllAcceptable;
      var i := 0;
      assert headers[0..] == headers;
      while i < |headers|
        invariant i <= |headers| && Inv() && state == REDOWNLOAD && |commitments| <= p.maxCommitments
        invariant seen == old(seen) && released == old(released) && accepted == old(accepted) + headers[..i]
        invariant Deserved(p, accepted, released)
        invariant (i > 0 ==> buffer != []) && (i == 0 ==> buffer == old(buffer))
                  && (buffer == [] && p.bufferSize > 0 ==> accepted == [])
        invariant resets == if i > 0 && old(buffer) == [] then old(resets) + {|old(accepted)|} else old(resets)
        invariant AllAcceptable(p, seen, old(accepted), PreviousBits(p, old(buffer)), headers)
             <==> AllAcceptable(p, seen, accepted, PreviousBits(p, buffer), headers[i..])
      {
        AllAcceptableNext(p, seen, accepted, PreviousBits(p, buffer), headers, i);
        DeservedStill(p, accepted, released, headers[i]);
        var fine := ValidateAndStoreRedownloadedHeader(headers[i]);
        if !fine {
          return false;
        }
        i := i + 1;
      }
      AllAcceptableNext(p, seen, accepted, PreviousBits(p, buffer), headers, i);
      ok := true;
    }

    method ProcessNextHeaders(received: seq<Header>, fullMessage: bool) returns (ret: ProcessingResult)
      requires Valid() && Continuous(p, received)
      modifies this
      ensures Valid() && released == old(released) + ret.powValidatedHeaders
      ensures received == [] || old(state) == FINAL
              ==> ret == ProcessingResult([], false, false) && state == old(state) && seen == old(seen)
                  && accepted == old(accepted)
      ensures received != [] ==> (state != FINAL <==> ret.success && ret.requestMore)
      ensures received != [] && old(state) == PRESYNC ==> accepted == []
                                                          && (ret.success ==> seen == old(seen) + received)
      ensures received != [] && old(state) == PRESYNC && state != FINAL
              ==> state == (if Enough(p, seen) then REDOWNLOAD else PRESYNC)
      ensures received != [] && old(state) == PRESYNC
              ==> (ret.success <==> received[0].prev == p.hash(Tip(p, old(seen)))
                                    && Difficulties(p, old(seen) + received)
                                    && |Recorded(p, old(seen) + received, 0)| <= p.maxCommitments)
      ensures received != [] && old(state) == REDOWNLOAD
              ==> (ret.success <==> AllAcceptable(p, seen, old(accepted), PreviousBits(p, old(buffer)), received))
      ensures received != [] && old(state) == PRESYNC && ret.success
              ==> ret.requestMore == (fullMessage || Enough(p, seen))
      ensures received != [] && old(state) == REDOWNLOAD
              ==> seen == old(seen) && ret.requestMore == (ret.success && fullMessage && !Enough(p, accepted))
      ensures received != [] && old(state) == REDOWNLOAD && ret.success
              ==> accepted == old(accepted) + received
                  && resets == (if old(buffer) == [] then old(resets) + {|old(accepted)|} else old(resets))
                  && (Enough(p, accepted) ==> released == accepted)
                  && (!Enough(p, accepted) ==> |accepted| - |released|
                                               == Lower(|accepted| - |old(released)|, p.bufferSize))
      ensures !ret.success ==> ret.powValidatedHeaders == [] && !ret.requestMore
    {
      hide Redownloading, Tracked, Chains, Recorded, Deserved, Continuous, Linked, Verified, Buffered, Difficulties,
          Tip,
           AllAcceptable;
      if received == [] || state == FINAL {
        return ProcessingResult([], false, false);
      }
      var headers, success, requestMore := [], false, false;
      if state == PRESYNC {
        success := ValidateAndStoreHeadersCommitments(received);
        if success && (fullMessage || state == REDOWNLOAD) {
          requestMore := true;
        }
        DeservedNothing(p, accepted);
      } else {
        success := StoreRedownloadedHeaders(received);
        if success {
          RedownloadEnd(p, seen, accepted, released, buffer, processAll, commitments);
          headers := PopHeadersReadyForAcceptance();
          RedownloadEnd(p, seen, accepted, released, buffer, processAll, commitments);
          if !(|buffer| == 0 && processAll) && fullMessage {
            requestMore := true;
          }
        }
      }
      if !(success && requestMore) {
        Finalize();
      }
      ret := ProcessingResult(headers, success, requestMore);
    }

    /** Any number of calls: what they return, in order, is what has been released. */
    method Run(batches: seq<(seq<Header>, bool)>) returns (out: seq<Header>)
      requires Valid() && forall i | 0 <= i < |batches| :: Continuous(p, batches[i].0)
      modifies this
      ensures Valid() && released == old(released) + out
    {
      hide Redownloading, Tracked, Chains, Recorded, Deserved, Continuous;
      out := [];
      var i := 0;
      while i < |batches|
        invariant i <= |batches| && Valid() && released == old(released) + out
      {
        var ret := ProcessNextHeaders(batches[i].0, batches[i].1);
        out := out + ret.powValidatedHeaders;
        i := i + 1;
      }
    }

    /** Asks for what follows the last header taken in the current phase. */
    method NextHeadersRequestLocator(startLocator: seq<nat>) returns (locator: seq<nat>)
      requires Valid()
      ensures locator == match state
                         case PRESYNC => [p.hash(Tip(p, seen))] + startLocator
                         case REDOWNLOAD => [p.hash(Tip(p, accepted))] + startLocator
                         case FINAL => []
    {
      if state == FINAL {
        return [];
      }
      locator := [];
      if state == PRESYNC {
        locator := locator + [p.hash(lastHeader)];
      }
      if state == REDOWNLOAD {
        locator := locator + [bufferLastHash];
      }
      locator := locator + startLocator;
    }
  }

  function Lower(x: int, y: int): int {
    if x <= y then x else y
  }

  lemma DeservedStill(p: Sync, accepted: seq<Header>, released: seq<Header>, h: Header)
    requires Deserved(p, accepted, released)
    ensures Deserved(p, accepted + [h], released)
  {
    WorkSuffices(p, accepted, h);
  }

  lemma ChainsSeen(p: Sync, seen: seq<Header>, accepted: seq<Header>, released: seq<Header>, resets: set<nat>)
    requires p.period > 0 && Chains(p, seen, accepted, released, resets)
    ensures Linked(p, seen) && Difficulties(p, seen)
  {
  }

  lemma DeservedNothing(p: Sync, accepted: seq<Header>)
    ensures Deserved(p, accepted, [])
  {
  }

  /** The front of the buffer is released: it deserves it, and everything stays as it should be. */
  lemma ReleaseNext(p: Sync, seen: seq<Header>, accepted: seq<Header>, released: seq<Header>,
                    buffer: seq<CompressedHeader>, all: bool, commitments: seq<bool>, resets: set<nat>)
    requires p.period > 0 && Chains(p, seen, accepted, released, resets)
    requires Redownloading(p, seen, accepted, released, buffer, all, commitments) && buffer != []
    requires |buffer| > p.bufferSize || all
    ensures var h := GetFullHeader(buffer[0], p.hash(Tip(p, released)));
            && Chains(p, seen, accepted, released + [h], resets) && Tip(p, released + [h]) == h
            && Redownloading(p, seen, accepted, released + [h], buffer[1..], all, commitments)
            && Deserved(p, accepted, released + [h])
  {
    hide Linked, Difficulties, DifficultiesFrom, Recorded, Work, Verified, Buffered, GetFullHeader, Tip;
    BufferedFront(p, accepted, released, buffer);
    BufferedLength(p, accepted, released, buffer);
    var h := GetFullHeader(buffer[0], p.hash(Tip(p, released)));
    BufferedLength(p, accepted, released + [h], buffer[1..]);
    TipAppend(p, released, h);
  }

  lemma AllReleased(p: Sync, seen: seq<Header>, accepted: seq<Header>, released: seq<Header>,
                    buffer: seq<CompressedHeader>, all: bool, commitments: seq<bool>)
    requires p.period > 0 && Redownloading(p, seen, accepted, released, buffer, all, commitments) && buffer == []
    ensures released == accepted
  {
    BufferedAll(p, accepted, released, buffer);
  }

  lemma RedownloadEnd(p: Sync, seen: seq<Header>, accepted: seq<Header>, released: seq<Header>,
                      buffer: seq<CompressedHeader>, all: bool, commitments: seq<bool>)
    requires p.period > 0 && Redownloading(p, seen, accepted, released, buffer, all, commitments)
    ensures all == (accepted != [] && Enough(p, accepted)) && |buffer| == |accepted| - |released|
  {
  }

  /** With room in the buffer, every accepted difficulty is a permitted change of the one before. */
  lemma AcceptedDifficulties(s: HeadersSyncState)
    requires s.Valid() && s.p.bufferSize > 0
    ensures Difficulties(s.p, s.accepted)
  {
    DifficultiesFromStart(s.p, s.accepted, s.resets);
  }

  /** Every header handed out lies on a chain with enough work, or has enough verified commitments on top. */
  lemma ReleasedJustified(s: HeadersSyncState, i: nat)
    requires s.Valid() && i < |s.released|
    ensures Enough(s.p, s.accepted)
         || Backing(s.p, s.seen, s.accepted, i + 1, s.p.bufferSize) >= s.p.bufferSize / s.p.period
  {
    if !Enough(s.p, s.accepted) {
      ReleasedBacked(s.p, s.seen, s.accepted, i);
    }
  }

  /** What the caller has made sure of: each header of a batch names the one before. */
  ghost predicate Continuous(p: Sync, hs: seq<Header>) {
    forall i | 0 < i < |hs| :: hs[i].prev == p.hash(hs[i - 1])
  }

  lemma ContinuousNext(p: Sync, before: seq<Header>, hs: seq<Header>, i: nat)
    requires Continuous(p, hs) && i < |hs| && hs[0].prev == p.hash(Tip(p, before))
    ensures hs[i].prev == p.hash(Tip(p, before + hs[..i]))
  {
    if i == 0 {
      assert before + hs[..0] == before;
    }
  }

  lemma BatchNext(p: Sync, before: seq<Header>, hs: seq<Header>, i: nat)
    requires p.period > 0 && Continuous(p, hs) && i < |hs| && hs[0].prev == p.hash(Tip(p, before))
    ensures hs[i].prev == p.hash(Tip(p, before + hs[..i]))
    ensures before + hs[..i] + [hs[i]] == before + hs[..i + 1]
    ensures Difficulties(p, before + hs) ==> p.permitted(p.startHeight + |before| + i + 1,
                                                         Tip(p, before + hs[..i]).bits, hs[i].bits)
    ensures |Recorded(p, before + hs[..i + 1], 0)| <= |Recorded(p, before + hs, 0)|
  {
    hide Tip, Recorded, Difficulties;
    ContinuousNext(p, before, hs, i);
    DifficultiesAt(p, before + hs, |before| + i);
    assert (before + hs)[..|before| + i] == before + hs[..i];
    RecordedGrows(p, before + hs, |before| + i + 1, 0);
    assert (before + hs)[..|before| + i + 1] == before + hs[..i + 1];
  }

  lemma DifficultiesAt(p: Sync, hs: seq<Header>, i: nat)
    requires i < |hs|
    ensures Difficulties(p, hs) ==> p.permitted(p.startHeight + 1 + i, Tip(p, hs[..i]).bits, hs[i].bits)
  {
  }

  lemma {:induction false} RecordedGrows(p: Sync, hs: seq<Header>, n: nat, i: nat)
    requires p.period > 0 && n <= |hs|
    ensures |Recorded(p, hs[..n], i)| <= |Recorded(p, hs, i)|
    decreases |hs| - i
  {
    if i < n {
      RecordedGrows(p, hs, n, i + 1);
    }
  }

  lemma RedownloadStart(p: Sync, seen: seq<Header>)
    requires p.period > 0 && Enough(p, seen)
    ensures Redownloading(p, seen, [], [], [], false, Recorded(p, seen, 0))
    ensures Tracked(p, [], [], p.hash(p.start), p.hash(p.start), p.startHeight, p.startWork)
  {
  }

  lemma BufferedLength(p: Sync, accepted: seq<Header>, released: seq<Header>, buffer: seq<CompressedHeader>)
    requires Buffered(p, accepted, released, buffer)
    ensures |buffer| == |accepted| - |released| && released <= accepted
  {
  }

  lemma RedownloadFacts(p: Sync, seen: seq<Header>, accepted: seq<Header>, released: seq<Header>,
                        buffer: seq<CompressedHeader>, all: bool, commitments: seq<bool>, h: Header)
    requires p.period > 0 && Redownloading(p, seen, accepted, released, buffer, all, commitments)
    ensures !all ==> commitments == Recorded(p, seen, |accepted|)
    ensures all ==> Enough(p, accepted + [h])
    ensures Work(p, accepted + [h]) == Work(p, accepted) + p.proof(h.bits)
    ensures Tip(p, accepted + [h]) == h
    ensures Enough(p, seen) && Buffered(p, accepted, released, buffer)
  {
    WorkAppend(p, accepted, h);
  }

  /** The difficulty the next header is compared with. */
  function PreviousBits(p: Sync, buffer: seq<CompressedHeader>): nat {
    if buffer != [] then buffer[|buffer| - 1].bits else p.start.bits
  }

  /** The header connects, its difficulty is permitted and, while the work does not suffice, it has
      the bit recorded for it if there is to be one. */
  ghost predicate Acceptable(p: Sync, seen: seq<Header>, accepted: seq<Header>, previous: nat, h: Header)
    requires p.period > 0
  {
    && h.prev == p.hash(Tip(p, accepted))
    && p.permitted(p.startHeight + |accepted| + 1, previous, h.bits)
    && (Commits(p, |accepted|) && !Enough(p, accepted + [h]) ==> |accepted| < |seen|
                                                                 && Bit(p, h) == Bit(p, seen[|accepted|]))
  }

  /** Each header of a batch is acceptable after those before it. */
  ghost predicate AllAcceptable(p: Sync, seen: seq<Header>, accepted: seq<Header>, previous: nat, hs: seq<Header>)
    requires p.period > 0
    decreases hs
  {
    hs == []
    || (Acceptable(p, seen, accepted, previous, hs[0])
        && AllAcceptable(p, seen, accepted + [hs[0]], hs[0].bits, hs[1..]))
  }

  lemma AllAcceptableNext(p: Sync, seen: seq<Header>, accepted: seq<Header>, previous: nat, hs: seq<Header>, i: nat)
    requires p.period > 0 && i <= |hs|
    ensures AllAcceptable(p, seen, accepted, previous, hs[i..])
       <==> i == |hs| || (Acceptable(p, seen, accepted, previous, hs[i])
                          && AllAcceptable(p, seen, accepted + [hs[i]], hs[i].bits, hs[i + 1..]))
  {
    hide Acceptable;
    if i < |hs| {
      assert hs[i..][1..] == hs[i + 1..];
    }
  }

  lemma CommitsAt(p: Sync, i: nat)
    requires p.period > 0
    ensures Commits(p, i) <==> (p.startHeight + i + 1) % p.period == p.offset
  {
  }

  lemma AcceptedNext(p: Sync, seen: seq<Header>, accepted: seq<Header>, released: seq<Header>,
                     buffer: seq<CompressedHeader>, h: Header, all: bool, commitments: seq<bool>, resets: set<nat>)
    requires p.period > 0 && Chains(p, seen, accepted, released, resets) && Buffered(p, accepted, released, buffer)
             && Enough(p, seen)
    requires p.bufferSize > 0 && buffer == [] ==> accepted == []
    requires Acceptable(p, seen, accepted, PreviousBits(p, buffer), h)
    requires all == Enough(p, accepted + [h]) && (!all ==> commitments == Recorded(p, seen, |accepted| + 1))
    ensures Chains(p, seen, accepted + [h], released, if buffer == [] then resets + {|accepted|} else resets)
    ensures Redownloading(p, seen, accepted + [h], released, buffer + [Compress(h)], all, commitments)
  {
    hide Linked, Difficulties, DifficultiesFrom, Tip, Work, Verified, Commits, Bit, Recorded;
    LinkedAppend(p, accepted, h);
    VerifiedAppend(p, seen, accepted, h);
    BufferedAppend(p, accepted, released, buffer, h);
    WorkSuffices(p, accepted, h);
    BufferedBits(p, accepted, released, buffer);
    DifficultiesFromAppend(p, accepted, resets, h, buffer == []);
  }

  lemma TipAppend(p: Sync, hs: seq<Header>, h: Header)
    ensures Tip(p, hs + [h]) == h
  {
  }

  lemma VerifiedNothing(p: Sync, seen: seq<Header>)
    requires p.period > 0
    ensures Verified(p, seen, [])
  {
  }

  lemma WorkSuffices(p: Sync, hs: seq<Header>, h: Header)
    ensures Enough(p, hs) ==> Enough(p, hs + [h])
  {
    WorkAppend(p, hs, h);
  }

  /** The recorded bits from an index on begin with its own, if it is one to commit to. */
  lemma RecordedFront(p: Sync, seen: seq<Header>, i: nat)
    requires p.period > 0
    ensures Commits(p, i) ==> if i < |seen| then Recorded(p, seen, i) == [Bit(p, seen[i])] + Recorded(p, seen, i + 1)
                              else Recorded(p, seen, i) == []
    ensures !Commits(p, i) ==> Recorded(p, seen, i) == Recorded(p, seen, i + 1)
  {
  }

  lemma BufferedBits(p: Sync, accepted: seq<Header>, released: seq<Header>, buffer: seq<CompressedHeader>)
    requires Buffered(p, accepted, released, buffer)
    ensures PreviousBits(p, buffer) == (if buffer == [] then p.start else Tip(p, accepted)).bits
  {
  }

  // ---------------------------------------------------------------- without a buffer

  /** Each header may at most double the number of its predecessor. */
  function Bufferless(): Sync {
    Sync((h: Header) => h.nonce, (x: nat) => false, (bits: nat) => bits, (height: int, a: nat, b: nat) => b <= 2 * a,
         1, 0, 0, 10, 100, Header(0, 0, 0, 0, 4, 0), 0, 0)
  }

  /** With a buffer size of zero, a second batch may begin with a change that is not permitted: 1 is
      followed by 8, and only the 4 of the block to build on is looked at. */
  method BufferlessRun() returns (s: HeadersSyncState)
    ensures s.Valid() && s.p.bufferSize == 0 && |s.accepted| == 2 && !Difficulties(s.p, s.accepted)
  {
    hide Bufferless, Chains, Redownloading, Tracked, Deserved, Enough, Recorded, Difficulties, AllAcceptable, Tip,
        Work, Continuous;
    BufferlessFacts();
    s := new HeadersSyncState(Bufferless());
    var r := s.ProcessNextHeaders(Climb(), true);
    assert [] + Climb() == Climb();
    r := s.ProcessNextHeaders([Dip()], true);
    assert [] + [Dip()] == [Dip()];
    r := s.ProcessNextHeaders([Leap()], true);
    assert [Dip()] + [Leap()] == [Dip(), Leap()];
  }

  function Climb(): seq<Header> {
    [Header(0, 0, 0, 0, 8, 1), Header(0, 1, 0, 0, 16, 2), Header(0, 2, 0, 0, 32, 3), Header(0, 3, 0, 0, 64, 4)]
  }

  function Dip(): Header {
    Header(0, 0, 0, 0, 1, 11)
  }

  function Leap(): Header {
    Header(0, 11, 0, 0, 8, 12)
  }

  lemma BufferlessFacts()
    ensures var p := Bufferless();
            && Proper(p) && p.bufferSize == 0 && p.start.bits == 4
            && Continuous(p, Climb()) && Continuous(p, [Dip()]) && Continuous(p, [Leap()])
            && Climb() != [] && Climb()[0].prev == p.hash(Tip(p, [])) && Difficulties(p, Climb()) && Enough(p, Climb())
            && |Recorded(p, Climb(), 0)| <= p.maxCommitments
            && AllAcceptable(p, Climb(), [], 4, [Dip()]) && !Enough(p, [Dip()])
            && AllAcceptable(p, Climb(), [Dip()], 4, [Leap()]) && !Enough(p, [Dip(), Leap()])
            && !Difficulties(p, [Dip(), Leap()])
  {
    ClimbFacts();
    DipFacts();
  }

  lemma ClimbFacts()
    ensures var p := Bufferless();
            && Continuous(p, Climb()) && Climb()[0].prev == p.hash(Tip(p, [])) && Difficulties(p, Climb())
               && Enough(p, Climb())
            && |Recorded(p, Climb(), 0)| <= p.maxCommitments
  {
    var p, c := Bufferless(), Climb();
    forall i | 0 <= i < |c|
      ensures p.permitted(p.startHeight + 1 + i, Tip(p, c[..i]).bits, c[i].bits)
    {
      assert i > 0 ==> Tip(p, c[..i]) == c[i - 1];
    }
    assert c == [c[0], c[1], c[2]] + [c[3]] && [c[0], c[1], c[2]] == [c[0], c[1]] + [c[2]]
           && [c[0], c[1]] == [c[0]] + [c[1]];
    assert [c[0]] == [] + [c[0]];
    WorkAppend(p, [c[0], c[1], c[2]], c[3]);
    WorkAppend(p, [c[0], c[1]], c[2]);
    WorkAppend(p, [c[0]], c[1]);
    WorkAppend(p, [], c[0]);
    RecordedFew(p, c, 0);
  }

  lemma {:induction false} RecordedFew(p: Sync, hs: seq<Header>, i: nat)
    requires p.period > 0 && i <= |hs|
    ensures |Recorded(p, hs, i)| <= |hs| - i
    decreases |hs| - i
  {
    if i < |hs| {
      RecordedFew(p, hs, i + 1);
    }
  }

  lemma DipFacts()
    ensures var p := Bufferless();
            && AllAcceptable(p, Climb(), [], 4, [Dip()]) && !Enough(p, [Dip()])
            && AllAcceptable(p, Climb(), [Dip()], 4, [Leap()]) && !Enough(p, [Dip(), Leap()])
            && !Difficulties(p, [Dip(), Leap()])
  {
    var p := Bufferless();
    assert [] + [Dip()] == [Dip()] && [Dip()] + [Leap()] == [Dip(), Leap()];
    WorkAppend(p, [], Dip());
    WorkAppend(p, [Dip()], Leap());
    assert Tip(p, [Dip(), Leap()][..1]) == Dip();
    assert Acceptable(p, Climb(), [], 4, Dip());
    assert Acceptable(p, Climb(), [Dip()], 4, Leap());
  }
}
