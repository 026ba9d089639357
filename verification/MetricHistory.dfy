/** The in-memory metric buffers, one per server, each holding the most recent points. */
module MetricHistory {
  datatype MetricPoint = MetricPoint(at: int, cpu: real, connections: int, disk: real)

  type Points = map<string, seq<MetricPoint>>

  function PointsOf(points: Points, id: string): seq<MetricPoint> {
    if id in points then points[id] else []
  }

  function LastOf<T>(s: seq<T>, n: nat): seq<T> {
    if |s| <= n then s else s[|s| - n..]
  }

  class HistoryCollector {
    var points: Points
    const maxLen: nat

    constructor (maxLen: nat)
      ensures points == map[] && this.maxLen == maxLen
    {
      points := map[];
      this.maxLen := maxLen;
    }

    method Append(id: string, p: MetricPoint)
      modifies this
      ensures points == After(old(points), maxLen, Appended(id, p))
    {
      var pts := (if id in points then points[id] else []) + [p];
      if |pts| > maxLen {
        pts := pts[|pts| - maxLen..];
      }
      points := points[id := pts];
    }

    method Get(id: string) returns (copy: seq<MetricPoint>)
      ensures copy == PointsOf(points, id)
    {
      copy := if id in points then points[id] else [];
    }

    method Forget(id: string)
      modifies this
      ensures points == After(old(points), maxLen, Forgotten(id))
    {
      points := points - {id};
    }
  }

  // ---------- runs ----------

  datatype Event = Appended(id: string, p: MetricPoint) | Forgotten(id: string)

  function After(points: Points, maxLen: nat, e: Event): Points {
    match e
    case Appended(id, p) => points[id := LastOf(PointsOf(points, id) + [p], maxLen)]
    case Forgotten(id) => points - {id}
  }

  function Run(maxLen: nat, es: seq<Event>): Points {
    if es == [] then map[] else After(Run(maxLen, es[..|es| - 1]), maxLen, es[|es| - 1])
  }

  /** Every point appended for a server since it was last forgotten. */
  function Recorded(es: seq<Event>, id: string): seq<MetricPoint> {
    if es == [] then []
    else
      var rest := Recorded(es[..|es| - 1], id);
      match es[|es| - 1]
      case Appended(other, p) => if other == id then rest + [p] else rest
      case Forgotten(other) => if other == id then [] else rest
  }

  /** The buffer is exactly the most recent recorded points, as many as fit, whatever happened to other servers:
      it ends what was recorded, and it is full or all of it. */
  lemma BufferIsSuffix(maxLen: nat, es: seq<Event>, id: string)
    ensures var buffer, all := PointsOf(Run(maxLen, es), id), Recorded(es, id);
            && buffer == LastOf(all, maxLen)
            && |buffer| == (if |all| < maxLen then |all| else maxLen)
            && all == all[..|all| - |buffer|] + buffer
  {
    BufferIsLast(maxLen, es, id);
    LastOfEnds(Recorded(es, id), maxLen);
    hide LastOf;
  }

  lemma LastOfEnds<T>(s: seq<T>, n: nat)
    ensures |LastOf(s, n)| == if |s| < n then |s| else n
    ensures s == s[..|s| - |LastOf(s, n)|] + LastOf(s, n)
  {
  }

  lemma {:induction false} BufferIsLast(maxLen: nat, es: seq<Event>, id: string)
    ensures PointsOf(Run(maxLen, es), id) == LastOf(Recorded(es, id), maxLen)
  {
    if es != [] {
      var init, e := es[..|es| - 1], es[|es| - 1];
      BufferIsLast(maxLen, init, id);
      if e.Appended? && e.id == id { LastOfAppend(Recorded(init, id), e.p, maxLen); }
      hide LastOf;
    }
  }

  lemma LastOfAppend<T>(s: seq<T>, x: T, n: nat)
    ensures LastOf(LastOf(s, n) + [x], n) == LastOf(s + [x], n)
  {
  }

  predicate Ordered(s: seq<MetricPoint>) {
    forall i, j | 0 <= i < j < |s| :: s[i].at <= s[j].at
  }

  predicate ClockForward(es: seq<Event>) {
    forall i, j | 0 <= i < j < |es| && es[i].Appended? && es[j].Appended? :: es[i].p.at <= es[j].p.at
  }

  lemma {:induction false} RecordedFrom(es: seq<Event>, id: string, p: MetricPoint) returns (i: nat)
    requires p in Recorded(es, id)
    ensures i < |es| && es[i] == Appended(id, p)
  {
    var last := es[|es| - 1];
    if last == Appended(id, p) {
      i := |es| - 1;
    } else {
      i := RecordedFrom(es[..|es| - 1], id, p);
    }
  }

  lemma {:induction false} RecordedOrdered(es: seq<Event>, id: string)
    requires ClockForward(es)
    ensures Ordered(Recorded(es, id))
  {
    if es != [] {
      var init := es[..|es| - 1];
      RecordedOrdered(init, id);
      forall q | q in Recorded(init, id) && es[|es| - 1].Appended? ensures q.at <= es[|es| - 1].p.at {
        var i := RecordedFrom(init, id, q);
        assert es[i] == Appended(id, q);
      }
    }
  }

  /** A collector whose clock never goes back keeps every buffer ordered by time. */
  lemma BufferOrdered(maxLen: nat, es: seq<Event>, id: string)
    requires ClockForward(es)
    ensures Ordered(PointsOf(Run(maxLen, es), id))
  {
    BufferIsSuffix(maxLen, es, id);
    RecordedOrdered(es, id);
  }
}
