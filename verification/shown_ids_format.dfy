/**
 * The text form in which the set of shown ids is kept between runs under the
 * preference key `shown_ids`: every id in ascending order, each followed by a
 * comma. Reading it back splits on commas, skips zero-length pieces and parses
 * every other piece as a Java `int`.
 */
module ShownIdsFormat {
  import opened Wrappers
  import opened Records
  import opened Decimal

  /** Reading fails like `Integer.valueOf` does: on the first piece that is not a number. */
  datatype ParseError = NotANumber(token: string)

  lemma {:induction false} LeastOf(s: set<Int32>) returns (least: Int32)
    requires s != {}
    ensures least in s && forall x :: x in s ==> least <= x
    decreases |s|
  {
    var y :| y in s;
    var rest := s - {y};
    if rest == {} {
      least := y;
      forall x | x in s
        ensures least <= x
      {
        assert x !in rest;
      }
    } else {
      var m := LeastOf(rest);
      least := if y < m then y else m;
      forall x | x in s
        ensures least <= x
      {
        if x != y {
          assert x in rest;
        }
      }
    }
  }

  lemma LeastExists(s: set<Int32>)
    requires s != {}
    ensures exists m :: m in s && forall x :: x in s ==> m <= x
  {
    var m := LeastOf(s);
  }

  /** The first id a `TreeSet<Integer>` iterates over. */
  function Least(s: set<Int32>): (m: Int32)
    requires s != {}
    ensures m in s && forall x :: x in s ==> m <= x
  {
    LeastExists(s);
    var m :| m in s && forall x :: x in s ==> m <= x;
    m
  }

  /** The ids of a set in increasing order, as a `TreeSet<Integer>` iterates over them. */
  function Ascending(ids: set<Int32>): (xs: seq<Int32>)
    ensures |xs| == |ids|
    ensures forall i :: 0 <= i < |xs| ==> xs[i] in ids
    ensures forall x :: x in ids ==> x in xs
    ensures forall i, j :: 0 <= i < j < |xs| ==> xs[i] < xs[j]
    decreases |ids|
  {
    if ids == {} then []
    else
      var m := Least(ids);
      [m] + Ascending(ids - {m})
  }

  /** The decimal text of each id. */
  function Texts(xs: seq<Int32>): (texts: seq<string>)
    ensures |texts| == |xs|
    ensures forall i :: 0 <= i < |xs| ==> texts[i] == ToDecimal(xs[i])
  {
    if xs == [] then [] else [ToDecimal(xs[0])] + Texts(xs[1..])
  }

  /** The stored text for a set of ids: ascending, each id followed by `,`. */
  function Serialize(ids: set<Int32>): (text: string)
    ensures ids == {} <==> text == ""
    decreases |ids|
  {
    if ids == {} then ""
    else
      var m := Least(ids);
      ToDecimal(m) + "," + Serialize(ids - {m})
  }

  /** The pieces of `s` between commas, every empty piece included (a string without commas is one piece). */
  function Split(s: string): (pieces: seq<string>)
    ensures |pieces| >= 1
    ensures forall k :: 0 <= k < |pieces| ==> ',' !in pieces[k]
    decreases |s|
  {
    if |s| == 0 then [""]
    else if s[0] == ',' then [""] + Split(s[1..])
    else
      var rest := Split(s[1..]);
      [[s[0]] + rest[0]] + rest[1..]
  }

  /** The pieces put back together with a comma between neighbours. */
  function Join(pieces: seq<string>): string
    requires |pieces| >= 1
  {
    pieces[0] + Commas(pieces[1..])
  }

  /** Each piece preceded by a comma. */
  function Commas(pieces: seq<string>): string
  {
    if pieces == [] then "" else "," + pieces[0] + Commas(pieces[1..])
  }

  lemma JoinHead(pieces: seq<string>, c: char)
    requires |pieces| >= 1
    ensures Join([[c] + pieces[0]] + pieces[1..]) == [c] + Join(pieces)
  {
    var longer := [[c] + pieces[0]] + pieces[1..];
    var tail := Commas(pieces[1..]);
    assert longer[1..] == pieces[1..];
    assert Join(longer) == ([c] + pieces[0]) + tail;
    assert ([c] + pieces[0]) + tail == [c] + (pieces[0] + tail);
  }

  /** Splitting loses nothing: joining the pieces with commas gives the text back. */
  lemma {:induction false} JoinSplit(s: string)
    ensures Join(Split(s)) == s
    decreases |s|
  {
    if |s| > 0 {
      JoinSplit(s[1..]);
      if s[0] == ',' {
        var rest := Split(s[1..]);
        assert ([""] + rest)[1..] == rest;
        assert Join([""] + rest) == Commas(rest) == "," + rest[0] + Commas(rest[1..]);
        assert s == "," + s[1..];
      } else {
        JoinHead(Split(s[1..]), s[0]);
        assert s == [s[0]] + s[1..];
      }
    }
  }

  /** A failure names the first non-empty token that does not parse: every non-empty token before it parses. */
  lemma {:induction false} FirstBadToken(tokens: seq<string>)
    ensures ParseTokens(tokens).Failure? ==>
      exists k :: 0 <= k < |tokens| && ParseTokens(tokens).error == NotANumber(tokens[k])
        && (forall j :: 0 <= j < k && |tokens[j]| > 0 ==> ParseInt(tokens[j]).Some?)
    decreases |tokens|
  {
    if |tokens| > 0 && ParseTokens(tokens).Failure? {
      if |tokens[0]| > 0 && ParseInt(tokens[0]).None? {
        assert ParseTokens(tokens).error == NotANumber(tokens[0]);
      } else {
        var tail := tokens[1..];
        assert ParseTokens(tokens) == ParseTokens(tail);
        FirstBadToken(tail);
        var k :| 0 <= k < |tail| && ParseTokens(tail).error == NotANumber(tail[k])
          && (forall j :: 0 <= j < k && |tail[j]| > 0 ==> ParseInt(tail[j]).Some?);
        assert tokens[k + 1] == tail[k];
        forall j | 0 <= j < k + 1 && |tokens[j]| > 0
          ensures ParseInt(tokens[j]).Some?
        {
          if j > 0 {
            assert tokens[j] == tail[j - 1];
          }
        }
      }
    }
  }

  /** The ids of the non-empty tokens that parse. */
  ghost function Parsed(tokens: seq<string>): set<Int32>
  {
    set k | 0 <= k < |tokens| && |tokens[k]| > 0 && ParseInt(tokens[k]).Some? :: ParseInt(tokens[k]).value
  }

  /** Adds the ids of `tokens` in order, skipping zero-length tokens; the first token that does not parse fails. */
  function ParseTokens(tokens: seq<string>): (r: Result<set<Int32>, ParseError>)
    ensures r.Failure? ==> r.error.token in tokens && |r.error.token| > 0 && ParseInt(r.error.token).None?
    decreases |tokens|
  {
    if |tokens| == 0 then Success({})
    else if |tokens[0]| == 0 then ParseTokens(tokens[1..])
    else
      match ParseInt(tokens[0])
      case None => Failure(NotANumber(tokens[0]))
      case Some(v) =>
        match ParseTokens(tokens[1..])
        case Success(rest) => Success({v} + rest)
        case Failure(e) => Failure(e)
  }

  /**
   * Reading succeeds exactly when every non-empty token parses, and then
   * gives the ids of those tokens.
   */
  lemma {:induction false} ParseTokensMeaning(tokens: seq<string>)
    ensures ParseTokens(tokens).Success? <==>
      forall k :: 0 <= k < |tokens| && |tokens[k]| > 0 ==> ParseInt(tokens[k]).Some?
    ensures ParseTokens(tokens).Success? ==> ParseTokens(tokens).value == Parsed(tokens)
    decreases |tokens|
  {
    if |tokens| > 0 {
      var tail := tokens[1..];
      ParseTokensMeaning(tail);
      assert forall k :: 1 <= k < |tokens| ==> tokens[k] == tail[k - 1];
      if ParseTokens(tokens).Success? {
        var p := Parsed(tokens);
        assert p == Parsed(tail) + (if |tokens[0]| > 0 then {ParseInt(tokens[0]).value} else {}) by {
          forall x | x in p
            ensures x in Parsed(tail) || (|tokens[0]| > 0 && x == ParseInt(tokens[0]).value)
          {
            var k :| 0 <= k < |tokens| && |tokens[k]| > 0 && ParseInt(tokens[k]).Some? && ParseInt(tokens[k]).value == x;
            if k > 0 {
              assert tail[k - 1] == tokens[k];
            }
          }
          forall x | x in Parsed(tail)
            ensures x in p
          {
            var k :| 0 <= k < |tail| && |tail[k]| > 0 && ParseInt(tail[k]).Some? && ParseInt(tail[k]).value == x;
            assert tokens[k + 1] == tail[k];
          }
        }
      } else if |tokens[0]| > 0 && ParseInt(tokens[0]).Some? {
        var k :| 0 <= k < |tail| && |tail[k]| > 0 && ParseInt(tail[k]).None?;
        assert tokens[k + 1] == tail[k];
      }
    }
  }

  /** The set read from the stored value; a missing value reads as the empty set. */
  function ParseIds(stored: Option<string>): (r: Result<set<Int32>, ParseError>)
    ensures stored.None? ==> r == Success({})
  {
    match stored
    case None => Success({})
    case Some(text) => ParseTokens(Split(text))
  }

  lemma {:induction false} SplitPrefix(t: string, rest: string)
    requires ',' !in t
    ensures Split(t + "," + rest) == [t] + Split(rest)
    decreases |t|
  {
    if |t| == 0 {
      assert (t + "," + rest)[1..] == rest;
    } else {
      assert (t + "," + rest)[1..] == t[1..] + "," + rest;
      SplitPrefix(t[1..], rest);
      assert [t[0]] + t[1..] == t;
    }
  }

  /** Reading back what was stored gives exactly the stored set, the empty set included. */
  lemma {:induction false} ParseSerialize(ids: set<Int32>)
    ensures ParseIds(Some(Serialize(ids))) == Success(ids)
    decreases |ids|
  {
    if ids == {} {
      assert Split("") == [""];
      assert ParseTokens([""]) == ParseTokens([]);
    } else {
      var m := Least(ids);
      var tail := Serialize(ids - {m});
      SplitPrefix(ToDecimal(m), tail);
      var tokens := [ToDecimal(m)] + Split(tail);
      assert tokens[1..] == Split(tail);
      ParseToDecimal(m);
      ParseSerialize(ids - {m});
      assert {m} + (ids - {m}) == ids;
    }
  }

  /** A piece holding a space is not skipped: it fails to parse. */
  lemma SpaceIsNotSkipped()
    ensures ParseIds(Some("1, 2,")) == Failure(NotANumber(" 2"))
  {
    assert "1, 2," == "1" + "," + " 2," && " 2," == " 2" + "," + "";
    SplitPrefix("1", " 2,");
    SplitPrefix(" 2", "");
    assert Split("1, 2,") == ["1", " 2", ""];
    assert !AllDigits(" 2");
    assert ParseInt("1") == Some(1);
    assert ["1", " 2", ""][1..] == [" 2", ""];
  }

  /** Zero-length pieces, at either end or between commas, are skipped. */
  lemma EmptyPiecesSkipped()
    ensures ParseIds(Some(",,7,")) == Success({7})
  {
    assert ",,7," == "" + "," + ",7," && ",7," == "" + "," + "7," && "7," == "7" + "," + "";
    SplitPrefix("", ",7,");
    SplitPrefix("", "7,");
    SplitPrefix("7", "");
    assert Split(",,7,") == ["", "", "7", ""];
    assert ["", "", "7", ""][1..] == ["", "7", ""] && ["", "7", ""][1..] == ["7", ""] && ["7", ""][1..] == [""];
    assert [""][1..] == [];
    assert ParseTokens([""]) == Success({});
    assert ParseInt("7") == Some(7);
    var seven: set<Int32> := {7};
    assert seven + {} == seven;
    assert ParseTokens(["7", ""]) == Success(seven);
  }

  /** The stored text lists the ids in increasing order, each followed by a comma. */
  lemma {:induction false} SerializeFormat(ids: set<Int32>)
    ensures Split(Serialize(ids)) == Texts(Ascending(ids)) + [""]
    decreases |ids|
  {
    if ids != {} {
      var m := Least(ids);
      var rest := ids - {m};
      var t, tail := ToDecimal(m), Serialize(rest);
      var later := Texts(Ascending(rest));
      assert Serialize(ids) == t + "," + tail;
      SplitPrefix(t, tail);
      SerializeFormat(rest);
      assert Texts(Ascending(ids)) == [t] + later by {
        TextsCons(m, Ascending(rest));
      }
      Associative([t], later, [""]);
    }
  }

  lemma Associative<T>(a: seq<T>, b: seq<T>, c: seq<T>)
    ensures a + (b + c) == (a + b) + c
  {
  }

  lemma TextsCons(x: Int32, xs: seq<Int32>)
    ensures Texts([x] + xs) == [ToDecimal(x)] + Texts(xs)
  {
    assert ([x] + xs)[1..] == xs;
  }

  lemma SerializeExample()
    ensures Serialize({2, 1}) == "1,2,"
  {
    var ids: set<Int32> := {2, 1};
    assert Least(ids) == 1;
    assert ids - {1} == {2};
    var two: set<Int32> := {2};
    assert Least(two) == 2;
    assert two - {2} == {};
    assert ToDecimal(1) == "1" && ToDecimal(2) == "2";
  }
}
