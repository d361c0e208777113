/**
 Safety of the synchronisation protocol over every interleaving: what the local
 copies say about the ECU while clients keep editing.
 */
module SyncSafety {
  import opened DirtySpans
  import opened SyncMachine

  /** The checksum comparison of this step, if it is one, is not fooled. */
  ghost predicate NoCollision(s: State, e: Event, link: Link)
    requires Valid(s)
  {
    e.CrcReply? && s.phase.Checking? ==>
      var p := s.phase.page;
      link.checksum(s.pages[p].ecu) == link.checksum(s.ram[p]) ==> s.pages[p].ecu == s.ram[p]
  }

  ghost predicate NoCollisions(s: State, es: seq<Event>, link: Link)
    requires Valid(s) && Run(s, es, link)
    decreases |es|
  {
    es == [] || (NoCollision(s, es[0], link) && NoCollisions(Apply(s, es[0], link), es[1..], link))
  }

  /** No request of the flush went unanswered. */
  predicate Answered(e: Event) {
    !e.WriteFailed? && !e.CrcFailed? && !e.PageReadFailed?
  }

  predicate AllAnswered(es: seq<Event>) {
    forall k :: 0 <= k < |es| ==> Answered(es[k])
  }

  ghost predicate InSync(s: State, p: nat)
    requires Valid(s) && p < |s.pages|
  {
    s.pages[p].ecu == s.ram[p]
  }

  ghost predicate AllInSync(s: State)
    requires Valid(s)
  {
    forall p :: 0 <= p < |s.pages| ==> InSync(s, p)
  }

  /** The page whose visit is under way. */
  predicate Busy(s: State, p: nat) {
    match s.phase
    case Idle => false
    case PassPages(_) => false
    case Burning(_, _) => false
    case BurnAcked(_, _, _) => false
    case _ => s.phase.page == p
  }

  /** What the thread remembers between steps is what the shadows and RAM still say. */
  ghost predicate Remembers(s: State, link: Link)
    requires Valid(s)
  {
    && (s.phase.Checking? ==> s.phase.expected == link.checksum(s.pages[s.phase.page].ecu))
    && (s.phase.Installing? ==> s.phase.bytes == s.ram[s.phase.page])
  }

  lemma RemembersStep(s: State, e: Event, link: Link)
    requires Valid(s) && Enabled(s, e) && Remembers(s, link)
    ensures Remembers(Apply(s, e, link), link)
  {
  }

  // ----- pages whose last write has been checked ----------------------------

  /**
   The pages known good after `e`: a write attempt spoils its page until a
   matching checksum or a re-download comes in.
   */
  function Settle(s: State, e: Event, settled: set<nat>, link: Link): set<nat>
    requires Valid(s) && Enabled(s, e)
  {
    match e
    case WriteOk => settled - {s.phase.page}
    case WriteFailed(_) => settled - {s.phase.page}
    case CrcReply => if CompareCrc(s, link).phase.PassPages? then settled + {s.phase.page} else settled
    case Resync => settled + {s.phase.page}
    case _ => settled
  }

  function Settled(s: State, es: seq<Event>, settled: set<nat>, link: Link): set<nat>
    requires Valid(s) && Run(s, es, link)
    decreases |es|
  {
    if es == [] then settled
    else Settled(Apply(s, es[0], link), es[1..], Settle(s, es[0], settled, link), link)
  }

  ghost predicate SettledInSync(s: State, settled: set<nat>)
    requires Valid(s)
  {
    && (forall p :: p in settled && p < |s.pages| ==> InSync(s, p))
    && (s.phase.Acked? ==> s.phase.page !in settled)
  }

  lemma StepKeepsPages(s: State, e: Event, link: Link)
    requires Valid(s) && Enabled(s, e)
    ensures |Apply(s, e, link).pages| == |s.pages|
  {
  }

  /** A step leaves the shadow and the RAM of a page alone, or it is one of these. */
  lemma StepFrame(s: State, e: Event, link: Link, p: nat)
    requires Valid(s) && Enabled(s, e) && p < |s.pages|
    ensures |Apply(s, e, link).pages| == |s.pages|
    ensures !(e.Mark? || e.Resync?) || !Busy(s, p) ==> Apply(s, e, link).pages[p].ecu == s.pages[p].ecu
    ensures !(e.WriteOk? || e.WriteFailed?) || !Busy(s, p) ==> Apply(s, e, link).ram[p] == s.ram[p]
    ensures e.Resync? && Busy(s, p) ==> Apply(s, e, link).pages[p].ecu == s.phase.bytes
  {
  }

  lemma SettledStep(s: State, e: Event, settled: set<nat>, link: Link)
    requires Valid(s) && Enabled(s, e)
    requires Remembers(s, link) && SettledInSync(s, settled) && NoCollision(s, e, link)
    ensures SettledInSync(Apply(s, e, link), Settle(s, e, settled, link))
  {
    hide Outgoing, Store, DirtyPages, PendingPages, PhaseInRange;
    var r, t := Apply(s, e, link), Settle(s, e, settled, link);
    forall p | p in t && p < |r.pages| ensures InSync(r, p) {
      StepFrame(s, e, link, p);
      assert p in settled ==> InSync(s, p);
    }
  }

  /**
   In every interleaving of edits, acknowledged, lost and half-lost writes,
   checks and burns: a page whose last write attempt was followed by a checksum
   reply (and the re-download where it differed) has a truthful shadow, so if it
   is reported clean, the ECU runs exactly the wanted bytes.
   */
  lemma {:induction false} SettledPagesAreTruthful(s: State, es: seq<Event>, settled: set<nat>, link: Link, p: nat)
    requires Valid(s) && Run(s, es, link) && NoCollisions(s, es, link)
    requires Remembers(s, link) && SettledInSync(s, settled)
    requires p in Settled(s, es, settled, link) && p < |Final(s, es, link).pages|
    ensures Final(s, es, link).pages[p].ecu == Final(s, es, link).ram[p]
    ensures !Final(s, es, link).pages[p].Dirty() ==> Final(s, es, link).pages[p].data == Final(s, es, link).ram[p]
    decreases |es|
  {
    if es == [] {
    } else {
      RemembersStep(s, es[0], link);
      SettledStep(s, es[0], settled, link);
      SettledPagesAreTruthful(Apply(s, es[0], link), es[1..], Settle(s, es[0], settled, link), link, p);
    }
  }

  // ----- passes whose requests are all answered ------------------------------

  /** Only the page being visited may be out of step. */
  ghost predicate OthersInSync(s: State)
    requires Valid(s)
  {
    forall p :: 0 <= p < |s.pages| && !Busy(s, p) ==> InSync(s, p)
  }

  lemma OthersStep(s: State, e: Event, link: Link)
    requires Valid(s) && Enabled(s, e)
    requires Remembers(s, link) && OthersInSync(s) && NoCollision(s, e, link) && Answered(e)
    ensures OthersInSync(Apply(s, e, link))
  {
    var r := Apply(s, e, link);
    forall p | 0 <= p < |r.pages| && !Busy(r, p) ensures InSync(r, p) {
      StepFrame(s, e, link, p);
      if Busy(s, p) {
        VisitEnds(s, e, link, p);
      }
    }
  }

  /** An answered visit ends with a matching checksum or with the re-read image installed. */
  lemma VisitEnds(s: State, e: Event, link: Link, p: nat)
    requires Valid(s) && Enabled(s, e) && p < |s.pages|
    requires Answered(e) && Busy(s, p) && !Busy(Apply(s, e, link), p)
    ensures e.Resync? || (e.CrcReply? && s.phase.Checking? && link.checksum(s.ram[p]) == s.phase.expected)
  {
  }

  /**
   Passes and burns with every flush request answered, edits landing anywhere:
   whenever the thread is idle again, every shadow equals the ECU's RAM.
   */
  lemma {:induction false} AnsweredPassesStayInSync(s: State, es: seq<Event>, link: Link)
    requires Valid(s) && Run(s, es, link) && NoCollisions(s, es, link) && AllAnswered(es)
    requires Remembers(s, link) && OthersInSync(s)
    ensures Remembers(Final(s, es, link), link) && OthersInSync(Final(s, es, link))
    ensures Final(s, es, link).phase.Idle? ==> AllInSync(Final(s, es, link))
    decreases |es|
  {
    if es == [] {
    } else {
      RemembersStep(s, es[0], link);
      OthersStep(s, es[0], link);
      AnsweredPassesStayInSync(Apply(s, es[0], link), es[1..], link);
    }
  }
}
