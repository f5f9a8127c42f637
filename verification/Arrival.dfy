/** What arrives of a transfer when the operating system may refuse each of its chunks. */
module Arrivals {
  import opened Bytes
  import opened Paths
  import opened Transfer

  /** A chunk, and what the operating system decides while it is served. */
  datatype Piece = Piece(content: bytes, faults: Faults)

  /** All the bytes of a transfer. */
  function Whole(pieces: seq<Piece>): bytes {
    if pieces == [] then [] else Whole(Front(pieces)) + Last(pieces).content
  }

  /** The chunks that were answered OK, concatenated. */
  function Kept(pieces: seq<Piece>, statuses: seq<Status>): bytes
    requires |pieces| == |statuses|
  {
    if pieces == [] then []
    else Kept(Front(pieces), Front(statuses)) + (if Last(statuses) == Ok then Last(pieces).content else [])
  }

  lemma KeptSnoc(pieces: seq<Piece>, statuses: seq<Status>)
    requires |pieces| == |statuses| > 0
    ensures var before := Kept(Front(pieces), Front(statuses));
      Kept(pieces, statuses) == if Last(statuses) == Ok then before + Last(pieces).content else before
    ensures Ok in statuses <==> Ok in Front(statuses) || Last(statuses) == Ok
  {
  }

  // The progress of a transfer.

  datatype Kind = Creation | Replacement

  /** Where a transfer stands: no chunk has been written yet; these bytes have arrived; or the stream
      failed to open, and a later chunk may have made an empty file that it then could not use. */
  datatype Phase = Waiting | Receiving(content: bytes) | Jammed(stray: bool)

  /** The chunk does not get as far as the stream. */
  predicate TurnedBack(k: Kind, f: Faults) {
    (k.Creation? && f.mkdir.Some?) || f.open.Throws?
  }

  /** One more chunk, for a name under which a file can be made or not. */
  function Arrive(k: Kind, openable: bool, ph: Phase, x: Piece): Phase {
    if TurnedBack(k, x.faults) then ph
    else match ph
      case Waiting => if openable && x.faults.open.Allowed? then Receiving(x.content) else Jammed(false)
      case Receiving(before) => Receiving(before + x.content)
      case Jammed(stray) => Jammed(stray || (openable && x.faults.open.Allowed?))
  }

  function ArriveAll(k: Kind, openable: bool, pieces: seq<Piece>): Phase {
    if pieces == [] then Waiting else Arrive(k, openable, ArriveAll(k, openable, Front(pieces)), Last(pieces))
  }

  /** The reply to a chunk that is not the last, or that is turned back. */
  function Reception(k: Kind, openable: bool, ph: Phase, x: Piece): Status {
    if !TurnedBack(k, x.faults) && Arrive(k, openable, ph, x).Receiving? then Ok
    else Err(if k.Creation? then ERR_CREATE_FAILED else ERR_UPDATE_FAILED)
  }

  function Receptions(k: Kind, openable: bool, pieces: seq<Piece>): (ss: seq<Status>)
    ensures |ss| == |pieces|
  {
    if pieces == [] then []
    else
      Receptions(k, openable, Front(pieces))
      + [Reception(k, openable, ArriveAll(k, openable, Front(pieces)), Last(pieces))]
  }

  /** What becomes of a file whose last chunk was written. */
  datatype Verdict = Good | Wrong(status: Status) | Fatal

  function Judge(hash: Hasher, k: Kind, p: Path, digest: bytes, content: bytes, f: Faults): Verdict {
    if (k.Replacement? && (f.removeFails || f.renameFails)) || p in f.unreadable then Fatal
    else if f.hashThrows || hash(p, content) != digest then
      if f.discardFails then Fatal
      else
        Wrong(Err(match k
          case Creation => if f.hashThrows then ERR_CREATE_FAILED else ERR_CREATE_NO_MATCH
          case Replacement => if f.hashThrows then ERR_UPDATE_FAILED else ERR_UPDATE_NO_MATCH))
    else Good
  }

  /** How a transfer ends: the last chunk is not written, or a verdict is reached on what arrived. */
  datatype Ending = Unwritten(phase: Phase) | Judged(content: bytes, verdict: Verdict)

  function EndOf(
    hash: Hasher, k: Kind, openable: bool, p: Path, digest: bytes, ph: Phase, x: Piece): Ending
  {
    var after := Arrive(k, openable, ph, x);
    if TurnedBack(k, x.faults) || !after.Receiving? then Unwritten(after)
    else Judged(after.content, Judge(hash, k, p, digest, after.content, x.faults))
  }

  /** What has arrived is what was answered OK; as long as nothing was, there is no stream; and after
      a stream has failed to open nothing is answered OK. */
  lemma {:induction false} ArrivedIsKept(k: Kind, openable: bool, pieces: seq<Piece>)
    ensures var ph, ss := ArriveAll(k, openable, pieces), Receptions(k, openable, pieces);
      && (ph.Receiving? ==> ph.content == Kept(pieces, ss))
      && (ph.Receiving? <==> Ok in ss)
      && (!ph.Receiving? ==> Kept(pieces, ss) == [])
  {
    if pieces != [] {
      ArrivedIsKept(k, openable, Front(pieces));
      var ss := Receptions(k, openable, pieces);
      assert Front(ss) == Receptions(k, openable, Front(pieces));
      assert Ok in ss <==> Ok in Front(ss) || Last(ss) == Ok;
    }
  }

  lemma {:induction false} OnlyIfOpenable(k: Kind, openable: bool, pieces: seq<Piece>)
    ensures ArriveAll(k, openable, pieces).Receiving? || ArriveAll(k, openable, pieces) == Jammed(true) ==> openable
  {
    if pieces != [] {
      OnlyIfOpenable(k, openable, Front(pieces));
    }
  }

  /** A verdict is reached on a file that could be made, and it is good only if the digest is right. */
  lemma JudgedMeaning(hash: Hasher, k: Kind, openable: bool, p: Path, digest: bytes, sofar: seq<Piece>, x: Piece)
    ensures var end := EndOf(hash, k, openable, p, digest, ArriveAll(k, openable, sofar), x);
      && (end.Judged? ==> openable && !TurnedBack(k, x.faults))
      && (end.Judged? && end.verdict.Good? ==> hash(p, end.content) == digest)
      && (end.Unwritten? && (end.phase.Receiving? || end.phase == Jammed(true)) ==> openable)
  {
    OnlyIfOpenable(k, openable, sofar);
  }

  lemma {:induction false} AllOkIsWhole(pieces: seq<Piece>, statuses: seq<Status>)
    requires |pieces| == |statuses| && forall s <- statuses :: s == Ok
    ensures Kept(pieces, statuses) == Whole(pieces)
  {
    if pieces != [] {
      assert Last(statuses) in statuses && forall s <- Front(statuses) :: s in statuses;
      AllOkIsWhole(Front(pieces), Front(statuses));
    }
  }

  /** The i-th chunk is the first that gets as far as the stream. */
  predicate FirstThrough(k: Kind, pieces: seq<Piece>, i: nat) {
    i < |pieces| && !TurnedBack(k, pieces[i].faults) && forall j | 0 <= j < i :: TurnedBack(k, pieces[j].faults)
  }

  /** And there the stream fails to open: the system refuses to open its file, or no file can be made
      under its name. */
  predicate JamsAt(k: Kind, openable: bool, pieces: seq<Piece>, i: nat) {
    FirstThrough(k, pieces, i) && !(openable && pieces[i].faults.open.Allowed?)
  }

  lemma {:induction false} JammedExactly(k: Kind, openable: bool, pieces: seq<Piece>)
    ensures ArriveAll(k, openable, pieces).Jammed? <==> exists i: nat :: JamsAt(k, openable, pieces, i)
    ensures ArriveAll(k, openable, pieces).Waiting? <==> forall x <- pieces :: TurnedBack(k, x.faults)
  {
    if pieces != [] {
      hide JamsAt;
      var n, front := |pieces|, Front(pieces);
      JammedExactly(k, openable, front);
      forall i: nat
        ensures JamsAt(k, openable, pieces, i)
           <==> JamsAt(k, openable, front, i) || (i == n - 1 && JamsLast(k, openable, pieces))
      {
        JamsAtFront(k, openable, pieces, i);
      }
      JamsNow(k, openable, pieces);
      hide ArriveAll, JamsLast;
      if ArriveAll(k, openable, front).Jammed? {
        var i: nat :| JamsAt(k, openable, front, i);
        assert JamsAt(k, openable, pieces, i);
      } else if JamsLast(k, openable, pieces) {
        assert JamsAt(k, openable, pieces, n - 1);
      }
    }
  }

  predicate JamsLast(k: Kind, openable: bool, pieces: seq<Piece>)
    requires pieces != []
  {
    && !TurnedBack(k, Last(pieces).faults) && !(openable && Last(pieces).faults.open.Allowed?)
    && forall x <- Front(pieces) :: TurnedBack(k, x.faults)
  }

  lemma JamsNow(k: Kind, openable: bool, pieces: seq<Piece>)
    requires pieces != []
    requires ArriveAll(k, openable, Front(pieces)).Waiting? <==> forall x <- Front(pieces) :: TurnedBack(k, x.faults)
    ensures ArriveAll(k, openable, pieces).Jammed?
       <==> ArriveAll(k, openable, Front(pieces)).Jammed? || JamsLast(k, openable, pieces)
    ensures ArriveAll(k, openable, pieces).Waiting? <==> forall x <- pieces :: TurnedBack(k, x.faults)
  {
    assert forall x :: x in pieces <==> x in Front(pieces) || x == Last(pieces);
  }

  lemma JamsAtFront(k: Kind, openable: bool, pieces: seq<Piece>, i: nat)
    requires pieces != []
    ensures JamsAt(k, openable, pieces, i)
       <==> JamsAt(k, openable, Front(pieces), i) || (i == |pieces| - 1 && JamsLast(k, openable, pieces))
  {
    forall x | x in Front(pieces) ensures exists j :: 0 <= j < |pieces| - 1 && pieces[j] == x {
    }
  }
}
