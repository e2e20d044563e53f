/**
 * Pieces and requests together: every mix of the steps of PieceRuns and SchedulerRuns, in which each
 * request update takes its candidates from the pieces as they are at that time.
 */
module TorrentRuns {
  import opened Common
  import opened RequestOffers
  import opened RequestUpdates
  import PieceLifecycle
  import PieceRuns
  import RequestScheduler
  import SchedulerRuns

  datatype Whole<P> = Whole(torrent: Torrent, sched: RequestScheduler.Sched<P>)

  datatype Event<P> =
    | Piece(e: PieceRuns.Event)
    | Peer(e1: SchedulerRuns.Event<P>)       // any step of a peer but an update
    | Update(p: P, baseline: bool, scene: Scene, pops: seq<Offer>, acks: set<RequestScheduler.Req>)

  /** What the program guarantees about the arguments of a step. */
  ghost predicate Enabled<P>(w: Whole<P>, e: Event<P>) {
    match e
    case Piece(e) => PieceRuns.Enabled(w.torrent, e)
    case Peer(e) => !e.Updated? && SchedulerRuns.Enabled(w.sched, e)
    case Update(p, baseline, scene, pops, _) =>
      && Right(scene) && scene.torrent == w.torrent
      && PopsOf(w.sched, p, baseline, Offers(scene), pops)
      && (w.sched.peers[p].link.webseed || w.sched.peers[p].link.buffered <= SAFE_BUFFERED)
  }

  ghost function Step<P>(w: Whole<P>, e: Event<P>): Outcome<Whole<P>>
    requires Enabled(w, e)
  {
    match e
    case Piece(e) => Done(w.(torrent := PieceRuns.Step(w.torrent, e)))
    case Peer(e) =>
      var sched :- SchedulerRuns.Step(w.sched, e);
      Done(w.(sched := sched))
    case Update(p, _, scene, pops, acks) =>
      var sched :- RequestScheduler.Update(w.sched, p, Offers(scene), pops, acks);
      Done(w.(sched := sched))
  }

  ghost predicate Inv<P>(w: Whole<P>) {
    PieceLifecycle.Inv(w.torrent) && RequestScheduler.Inv(w.sched, {})
  }

  lemma StepKeeps<P>(w: Whole<P>, e: Event<P>)
    requires Inv(w) && Enabled(w, e)
    ensures Step(w, e).Done? && Inv(Step(w, e).value)
  {
    match e
    case Piece(e) => PieceRuns.StepKeeps(w.torrent, e);
    case Peer(e) => SchedulerRuns.StepKeeps(w.sched, e);
    case Update(p, baseline, scene, pops, acks) =>
      AllOffersPass(scene);
      UpdateKeeps(w.sched, p, baseline, Offers(scene), pops, acks);
  }

  /** Every event is possible when its turn comes. */
  ghost predicate Runnable<P>(w: Whole<P>, es: seq<Event<P>>)
    decreases es
  {
    es == [] || (Enabled(w, es[0]) && (Step(w, es[0]).Done? ==> Runnable(Step(w, es[0]).value, es[1..])))
  }

  ghost function Run<P>(w: Whole<P>, es: seq<Event<P>>): Outcome<Whole<P>>
    requires Runnable(w, es)
    decreases es
  {
    if es == [] then Done(w)
    else
      var w1 :- Step(w, es[0]);
      Run(w1, es[1..])
  }

  /**
   * No panic is reachable, those of the request checks included: no request is ever made for a piece
   * that is being hashed or queued for it, that the peer lacks, or that has no such chunk.
   */
  lemma {:induction false} RunKeeps<P>(w: Whole<P>, es: seq<Event<P>>)
    requires Inv(w) && Runnable(w, es)
    ensures Run(w, es).Done? && Inv(Run(w, es).value)
    decreases es
  {
    if es == [] {
    } else {
      StepKeeps(w, es[0]);
      RunKeeps(Step(w, es[0]).value, es[1..]);
    }
  }

  /** In particular from a torrent that has just got its info and has no peers. */
  lemma RunFromFresh<P>(t: Torrent, es: seq<Event<P>>)
    requires PieceLifecycle.Inv(t) && Runnable(Whole(t, RequestScheduler.Sched(map[], map[])), es)
    ensures Run(Whole(t, RequestScheduler.Sched(map[], map[])), es).Done?
  {
    var s: RequestScheduler.Sched<P> := RequestScheduler.Sched(map[], map[]);
    assert RequestScheduler.Inv(s, {});
    RunKeeps(Whole(t, s), es);
  }
}
