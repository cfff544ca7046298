/**
 * The shown-id set of the wallpaper source (a static `TreeSet<Integer>`) and
 * the three pieces of code that change it: reading it when the service is
 * created, writing it when the service is destroyed, and the selection loop.
 */
module Tracker {
  import opened Wrappers
  import opened Records
  import opened Decimal
  import opened ShownIdsFormat
  import opened Selection

  /** `r` with `added` joined to its set, or the same failure. */
  function Joined(added: set<Int32>, r: Result<set<Int32>, ParseError>): Result<set<Int32>, ParseError>
  {
    match r
    case Success(ids) => Success(added + ids)
    case Failure(e) => Failure(e)
  }

  class ShownIds {
    var ids: set<Int32>

    constructor ()
      ensures ids == {}
    {
      ids := {};
    }

    /**
     * `onCreate`: add every id of the stored text. The first piece that is
     * not a number stops the loop with the ids read so far already added.
     */
    method Load(stored: Option<string>) returns (outcome: Result<(), ParseError>)
      modifies this
      ensures outcome.Success? <==> ParseIds(stored).Success?
      ensures outcome.Success? ==> ids == old(ids) + ParseIds(stored).value
      ensures outcome.Failure? ==> outcome.error == ParseIds(stored).error && old(ids) <= ids
    {
      if stored.None? {
        return Success(());
      }
      var tokens := Split(stored.value);
      ghost var added: set<Int32> := {};
      assert tokens[0..] == tokens;
      if ParseTokens(tokens).Success? {
        assert added + ParseTokens(tokens).value == ParseTokens(tokens).value;
      }
      for i := 0 to |tokens|
        invariant ids == old(ids) + added
        invariant ParseTokens(tokens) == Joined(added, ParseTokens(tokens[i..]))
      {
        assert tokens[i..][1..] == tokens[i + 1..];
        var token := tokens[i];
        if |token| > 0 {
          var id := ParseInt(token);
          if id.None? {
            return Failure(NotANumber(token));
          }
          var later := ParseTokens(tokens[i + 1..]);
          if later.Success? {
            assert added + ({id.value} + later.value) == (added + {id.value}) + later.value;
          }
          ids := ids + {id.value};
          added := added + {id.value};
        }
      }
      assert tokens[|tokens|..] == [];
      return Success(());
    }

    /** `onDestroy`: the text to store, ids in ascending order each followed by `,`; the set is then cleared. */
    method Save() returns (text: string)
      modifies this
      ensures text == Serialize(old(ids))
      ensures ids == {}
    {
      text := "";
      var rest := ids;
      while rest != {}
        invariant text + Serialize(rest) == Serialize(ids)
        decreases |rest|
      {
        var id := Least(rest);
        text := text + ToDecimal(id) + ",";
        rest := rest - {id};
      }
      ids := {};
    }

    /**
     * `selectWallpaper`: draw items until one is unshown, has renditions and
     * is not the current artwork (`currentId` is 0 when there is none).
     */
    method SelectWallpaper(list: seq<Wallpaper>, currentId: int, draws: seq<nat>) returns (outcome: Draw)
      modifies this
      ensures (ids, outcome) == SelectRun(old(ids), list, currentId, draws)
      ensures outcome.Picked? ==> outcome.wallpaper.ilId in ids && |ids| <= |list|
    {
      if |list| == 0 {
        return EmptyList;
      }
      var n := 0;
      while n < |draws|
        invariant 0 <= n <= |draws|
        invariant SelectRun(ids, list, currentId, draws[n..]) == SelectRun(old(ids), list, currentId, draws)
      {
        assert draws[n..][1..] == draws[n + 1..];
        var wallpaper := list[draws[n] % |list|];
        n := n + 1;
        if wallpaper.ilId in ids {
          continue;
        }
        if |wallpaper.detail| == 0 {
          ids := ids + {wallpaper.ilId};  // an item without renditions counts as shown
          continue;
        }
        if |ids| >= |list| {
          ids := {};
        }
        if currentId != wallpaper.ilId {
          ids := ids + {wallpaper.ilId};
          return Picked(wallpaper);
        }
      }
      assert draws[n..] == [];
      return Drawing;
    }
  }
}
