/**
 * The two calls to the wallpaper API, each made at most three times in all, and the
 * lookup of the requested item in what the detail call returns.
 *
 * A remote call is a script of replies, one per attempt: a returned list
 * (possibly `null`), a transport failure (`RetrofitError`) or any other
 * exception.
 */
module Remote {
  import opened Wrappers
  import opened Records

  const MaxAttempts: nat := 3

  datatype Reply<T> =
    | Returned(payload: Option<T>)  // the call returned, `null` included
    | Transport                     // `RetrofitError`: try again
    | Other                         // any other exception: give up

  /**
   * The retry loop from attempt `attempt` on: the value it ends with and how
   * many calls were made in all.
   */
  function RetriedFrom<T>(script: seq<Reply<T>>, attempt: nat): (r: (Option<T>, nat))
    requires |script| >= MaxAttempts && attempt <= MaxAttempts
    ensures attempt <= r.1 <= MaxAttempts
    ensures attempt < MaxAttempts ==> attempt < r.1
    // every call before the last one failed in transport
    ensures forall j :: attempt <= j < r.1 - 1 ==> script[j].Transport?
    // the last call returned, gave up, or was the third transport failure
    ensures attempt < MaxAttempts ==>
      script[r.1 - 1].Returned? || script[r.1 - 1].Other? || r.1 == MaxAttempts
    // the value is what the last call returned, and null otherwise
    ensures r.0 == (if attempt < MaxAttempts && script[r.1 - 1].Returned? then script[r.1 - 1].payload else None)
    decreases MaxAttempts - attempt
  {
    if attempt == MaxAttempts then (None, attempt)
    else
      match script[attempt]
      case Returned(payload) => (payload, attempt + 1)
      case Other => (None, attempt + 1)
      case Transport => RetriedFrom(script, attempt + 1)
  }

  function Retried<T>(script: seq<Reply<T>>): (r: (Option<T>, nat))
    requires |script| >= MaxAttempts
  {
    RetriedFrom(script, 0)
  }

  /** Three transport failures in a row end with `null` after three calls. */
  lemma ThreeTransportFailures<T>(script: seq<Reply<T>>)
    requires |script| >= MaxAttempts
    requires script[0].Transport? && script[1].Transport? && script[2].Transport?
    ensures Retried(script) == (None, 3)
  {
  }

  /** `getWallpapers` / the first half of `getDetail`: the counted retry loop. */
  method Fetch<T>(script: seq<Reply<T>>) returns (result: Option<T>, calls: nat)
    requires |script| >= MaxAttempts
    ensures (result, calls) == Retried(script)
  {
    result := None;
    calls := 0;
    var i := 0;
    while i < MaxAttempts
      invariant 0 <= i <= MaxAttempts && calls == i && result == None
      invariant RetriedFrom(script, i) == Retried(script)
    {
      calls := calls + 1;
      var reply := script[i];
      if reply.Returned? {
        result := reply.payload;
        break;
      } else if reply.Other? {
        break;
      }
      i := i + 1;
    }
  }

  /** The position of the first paper with id `id`, or `|papers|` if there is none. */
  function FirstWithId(papers: seq<Wallpaper>, id: int, from: nat): (k: nat)
    requires from <= |papers|
    ensures from <= k <= |papers|
    ensures k < |papers| ==> papers[k].ilId == id
    ensures forall j :: from <= j < k ==> papers[j].ilId != id
    decreases |papers| - from
  {
    if from == |papers| || papers[from].ilId == id then from
    else FirstWithId(papers, id, from + 1)
  }

  /** The first paper with id `id`, if any. */
  function Lookup(papers: seq<Wallpaper>, id: int): (r: Option<Wallpaper>)
    ensures r.None? <==> forall j :: 0 <= j < |papers| ==> papers[j].ilId != id
    ensures r.Some? ==> r.value.ilId == id
    ensures r.Some? ==>
      exists k :: 0 <= k < |papers| && papers[k] == r.value && forall j :: 0 <= j < k ==> papers[j].ilId != id
  {
    var k := FirstWithId(papers, id, 0);
    if k < |papers| then Some(papers[k]) else None
  }

  /** The scan at the end of `getDetail`. */
  method FindById(papers: seq<Wallpaper>, id: int) returns (found: Option<Wallpaper>)
    ensures found == Lookup(papers, id)
  {
    for i := 0 to |papers|
      invariant forall j :: 0 <= j < i ==> papers[j].ilId != id
    {
      if papers[i].ilId == id {
        return Some(papers[i]);
      }
    }
    return None;
  }

  /** The detail call's result: `null` when the call yields `null`, else the lookup. */
  function Detail(script: seq<Reply<seq<Wallpaper>>>, id: int): (r: Option<Wallpaper>)
    requires |script| >= MaxAttempts
    ensures Retried(script).0.None? ==> r.None?
    ensures r.Some? ==> r.value.ilId == id && r.value in Retried(script).0.value
    // with a reply, the paper is found exactly when one has the id, and it is the first such paper
    ensures Retried(script).0.Some? ==>
      (r.None? <==> forall j :: 0 <= j < |Retried(script).0.value| ==> Retried(script).0.value[j].ilId != id)
    ensures r.Some? ==>
      var papers := Retried(script).0.value;
      exists k :: 0 <= k < |papers| && papers[k] == r.value && forall j :: 0 <= j < k ==> papers[j].ilId != id
  {
    match Retried(script).0
    case None => None
    case Some(papers) => Lookup(papers, id)
  }

  /** `getDetail`: fetch the details of item `id` and pick it out of the reply. */
  method GetDetail(script: seq<Reply<seq<Wallpaper>>>, id: int) returns (found: Option<Wallpaper>)
    requires |script| >= MaxAttempts
    ensures found == Detail(script, id)
  {
    var papers, _ := Fetch(script);
    if papers.None? {
      return None;
    }
    found := FindById(papers.value, id);
  }
}
