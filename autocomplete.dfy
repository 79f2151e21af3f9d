/**
  The string side of the autocomplete popup: the query read from the composer on every
  input event, the rewrite a click on a suggestion performs, the length guard of
  `searchEmotes`, and `filterUniqueEmotes`.
 */
module Autocomplete {
  import opened Wrappers
  import opened Strings
  import opened Resolver

  /** The shortest query that triggers a search. */
  const MinQueryLength: nat := 2

  /** The input listener: the text after the last colon, when there is a colon and that text has at least two characters. */
  function QueryOf(value: string): Option<string>
  {
    var lastColonIndex := LastIndexOf(value, ':');
    if lastColonIndex == -1 then None
    else
      var query := value[lastColonIndex + 1..];
      if |query| >= MinQueryLength then Some(query) else None
  }

  /** The colon in front of a colon-free tail is the last colon. */
  lemma LastColon(prefix: string, tail: string)
    requires ':' !in tail
    ensures LastIndexOf(prefix + ":" + tail, ':') == |prefix|
  {
    var v := prefix + ":" + tail;
    var r := LastIndexOf(v, ':');
    assert v[|prefix|] == ':';
  }

  /** Without a colon there is no query. */
  lemma QueryOfNoColon(value: string)
    requires ':' !in value
    ensures QueryOf(value) == None
  {
  }

  /** After the last colon: a tail of two or more characters is the query, a shorter tail gives none. */
  lemma QueryOfComposed(prefix: string, tail: string)
    requires ':' !in tail
    ensures QueryOf(prefix + ":" + tail) == if |tail| >= MinQueryLength then Some(tail) else None
  {
    LastColon(prefix, tail);
    var v := prefix + ":" + tail;
    assert v[|prefix| + 1..] == tail;
  }

  /** Every query is the colon-free tail after the value's last colon, at least two characters long. */
  lemma QueryOfSound(value: string, query: string)
    requires QueryOf(value) == Some(query)
    ensures |query| >= MinQueryLength && ':' !in query
    ensures |query| < |value| && value == value[..|value| - |query| - 1] + ":" + query
  {
    var i := LastIndexOf(value, ':');
    assert value == value[..i] + [value[i]] + value[i + 1..];
  }

  /** The click handler: everything up to and including the last colon, then the name, a colon and a space; nothing when there is no colon. */
  function Select(value: string, name: string): Option<string>
  {
    var lastColonIndex := LastIndexOf(value, ':');
    if lastColonIndex == -1 then None
    else Some(value[..lastColonIndex + 1] + name + ": ")
  }

  /** Selecting replaces only the text after the last colon; the colon itself stays. */
  lemma SelectComposed(prefix: string, tail: string, name: string)
    requires ':' !in tail
    ensures Select(prefix + ":" + tail, name) == Some(prefix + ":" + name + ": ")
  {
    LastColon(prefix, tail);
    var v := prefix + ":" + tail;
    assert v[..|prefix| + 1] == prefix + ":";
  }

  lemma SelectNoColon(value: string, name: string)
    requires ':' !in value
    ensures Select(value, name) == None
  {
  }

  /** The input event a selection dispatches starts no new search: the value now ends in `": "`. */
  lemma SelectEndsQuery(value: string, name: string)
    requires Select(value, name).Some?
    ensures QueryOf(Select(value, name).value) == None
  {
    var i := LastIndexOf(value, ':');
    var w := Select(value, name).value;
    assert w == (value[..i + 1] + name) + ":" + " ";
    QueryOfComposed(value[..i + 1] + name, " ");
  }

  /** Typing `hi :pep` asks for `pep`; choosing `Pepega` leaves `hi :Pepega: `. */
  lemma AutocompleteExample()
    ensures QueryOf("hi :pep") == Some("pep")
    ensures Select("hi :pep", "Pepega") == Some("hi :Pepega: ")
  {
    assert "hi :pep" == "hi " + ":" + "pep";
    QueryOfComposed("hi ", "pep");
    SelectComposed("hi ", "pep", "Pepega");
    assert "hi " + ":" + "Pepega" + ": " == "hi :Pepega: ";
  }

  /** The results of a search, and whether the directory was asked at all. */
  datatype SearchOutcome = SearchOutcome(items: seq<EmoteRecord>, requested: bool)

  /** `searchEmotes(query)`: short queries are refused before any request; a failed request gives no items. */
  function SearchEmotes(query: string, search: Api): SearchOutcome
  {
    if |query| < MinQueryLength then SearchOutcome([], false)
    else
      match search(query)
      case None => SearchOutcome([], true)
      case Some(items) => SearchOutcome(items, true)
  }

  /** A query shorter than two characters sends nothing and finds nothing; any other query is sent, and a failure finds nothing. */
  lemma SearchGuard(query: string, search: Api)
    ensures SearchEmotes(query, search).requested <==> |query| >= MinQueryLength
    ensures !SearchEmotes(query, search).requested ==> SearchEmotes(query, search).items == []
    ensures search(query).None? ==> SearchEmotes(query, search).items == []
  {
  }

  /** No earlier emote has the same name, ignoring case. */
  predicate FirstOfName(es: seq<EmoteRecord>, i: int)
    requires 0 <= i < |es|
  {
    forall j :: 0 <= j < i ==> Lower(es[j].name) != Lower(es[i].name)
  }

  /** The reference for the deduplication: the emotes that are the first of their name, in input order. */
  function UniqueByName(es: seq<EmoteRecord>): seq<EmoteRecord>
    decreases |es|
  {
    if es == [] then []
    else UniqueByName(es[..|es| - 1]) + (if FirstOfName(es, |es| - 1) then [es[|es| - 1]] else [])
  }

  function LowerNames(es: seq<EmoteRecord>): set<string>
  {
    set i | 0 <= i < |es| :: Lower(es[i].name)
  }

  /** `filterUniqueEmotes`: keep an emote when its lower-cased name has not been seen, and remember it. */
  method FilterUniqueEmotes(emotes: seq<EmoteRecord>) returns (r: seq<EmoteRecord>)
    ensures r == UniqueByName(emotes)
  {
    var seenNames: set<string> := {};
    r := [];
    for i := 0 to |emotes|
      invariant r == UniqueByName(emotes[..i])
      invariant seenNames == LowerNames(emotes[..i])
    {
      var lowerName := Lower(emotes[i].name);
      var prefix := emotes[..i + 1];
      assert prefix[..i] == emotes[..i];
      assert FirstOfName(prefix, i) <==> lowerName !in seenNames by {
        if lowerName in seenNames {
          var j :| 0 <= j < i && Lower(emotes[..i][j].name) == lowerName;
          assert prefix[j] == emotes[..i][j];
        }
      }
      if lowerName !in seenNames {
        seenNames := seenNames + {lowerName};
        r := r + [emotes[i]];
      }
      assert LowerNames(prefix) == LowerNames(emotes[..i]) + {lowerName} by {
        assert forall j :: 0 <= j < i ==> prefix[j] == emotes[..i][j];
      }
    }
    assert emotes[..|emotes|] == emotes;
  }

  /** `a` can be obtained from `b` by deleting elements. */
  ghost predicate IsSubsequence(a: seq<EmoteRecord>, b: seq<EmoteRecord>)
    decreases |b|
  {
    if a == [] then true
    else if b == [] then false
    else (a[|a| - 1] == b[|b| - 1] && IsSubsequence(a[..|a| - 1], b[..|b| - 1])) || IsSubsequence(a, b[..|b| - 1])
  }

  /** The deduplicated list is the input with some emotes deleted, so the input's order is kept. */
  lemma {:induction false} UniqueIsSubsequence(es: seq<EmoteRecord>)
    ensures IsSubsequence(UniqueByName(es), es)
    decreases |es|
  {
    if es != [] {
      var front := es[..|es| - 1];
      UniqueIsSubsequence(front);
      var r := UniqueByName(es);
      if FirstOfName(es, |es| - 1) {
        assert r == UniqueByName(front) + [es[|es| - 1]];
        assert r[..|r| - 1] == UniqueByName(front);
        assert r[|r| - 1] == es[|es| - 1];
      } else {
        assert r == UniqueByName(front);
        assert r != [] ==> IsSubsequence(r, es[..|es| - 1]);
      }
    }
  }

  /** Every emote kept is the first of its name in the input. */
  lemma {:induction false} UniqueKeepsFirsts(es: seq<EmoteRecord>)
    ensures forall k :: 0 <= k < |UniqueByName(es)| ==>
      exists i :: 0 <= i < |es| && es[i] == UniqueByName(es)[k] && FirstOfName(es, i)
    decreases |es|
  {
    if es != [] {
      var front := es[..|es| - 1];
      UniqueKeepsFirsts(front);
      var r := UniqueByName(es);
      var r' := UniqueByName(front);
      forall k | 0 <= k < |r|
        ensures exists i :: 0 <= i < |es| && es[i] == r[k] && FirstOfName(es, i)
      {
        if k < |r'| {
          var i :| 0 <= i < |front| && front[i] == r'[k] && FirstOfName(front, i);
          assert es[i] == front[i];
          assert FirstOfName(es, i) by {
            forall j | 0 <= j < i ensures Lower(es[j].name) != Lower(es[i].name) {
              assert es[j] == front[j];
            }
          }
        } else {
          assert FirstOfName(es, |es| - 1);
          assert r[k] == es[|es| - 1];
        }
      }
      assert forall k :: 0 <= k < |r| ==> exists i :: 0 <= i < |es| && es[i] == r[k] && FirstOfName(es, i);
    } else {
      assert UniqueByName(es) == [];
    }
  }

  /** No two emotes of `rs` have the same name, ignoring case. */
  ghost predicate DistinctNames(rs: seq<EmoteRecord>)
  {
    forall i, j :: 0 <= i < j < |rs| ==> Lower(rs[i].name) != Lower(rs[j].name)
  }

  /** No two kept emotes have the same name, ignoring case. */
  lemma {:induction false} UniqueNoDuplicates(es: seq<EmoteRecord>)
    ensures DistinctNames(UniqueByName(es))
    decreases |es|
  {
    if es != [] {
      var front := es[..|es| - 1];
      UniqueNoDuplicates(front);
      UniqueKeepsFirsts(front);
      var r := UniqueByName(es);
      var r' := UniqueByName(front);
      assert forall k :: 0 <= k < |r'| ==> r[k] == r'[k];
      forall i, j | 0 <= i < j < |r|
        ensures Lower(r[i].name) != Lower(r[j].name)
      {
        if j < |r'| {
          assert r[i] == r'[i] && r[j] == r'[j];
          assert DistinctNames(r');
        } else {
          assert FirstOfName(es, |es| - 1) && r[j] == es[|es| - 1];
          assert i < |r'| && r[i] == r'[i];
          var m :| 0 <= m < |front| && front[m] == r'[i] && FirstOfName(front, m);
          assert es[m] == front[m];
          assert Lower(es[m].name) != Lower(es[|es| - 1].name);
        }
      }
    }
  }

  /** Every name of the input, ignoring case, is the name of some kept emote. */
  lemma {:induction false} UniqueCoversNames(es: seq<EmoteRecord>)
    ensures forall i :: 0 <= i < |es| ==>
      exists k :: 0 <= k < |UniqueByName(es)| && Lower(UniqueByName(es)[k].name) == Lower(es[i].name)
    decreases |es|
  {
    if es != [] {
      var front := es[..|es| - 1];
      UniqueCoversNames(front);
      var r := UniqueByName(es);
      var r' := UniqueByName(front);
      assert forall k :: 0 <= k < |r'| ==> r[k] == r'[k];
      forall i | 0 <= i < |es|
        ensures exists k :: 0 <= k < |r| && Lower(r[k].name) == Lower(es[i].name)
      {
        if i < |front| {
          assert es[i] == front[i];
          var k :| 0 <= k < |r'| && Lower(r'[k].name) == Lower(front[i].name);
          assert r[k] == r'[k];
          assert 0 <= k < |r| && Lower(r[k].name) == Lower(es[i].name);
        } else if FirstOfName(es, i) {
          assert r == r' + [es[i]];
          assert 0 <= |r'| < |r| && Lower(r[|r'|].name) == Lower(es[i].name);
        } else {
          var j :| 0 <= j < i && Lower(es[j].name) == Lower(es[i].name);
          assert es[j] == front[j];
          var k :| 0 <= k < |r'| && Lower(r'[k].name) == Lower(front[j].name);
          assert r[k] == r'[k];
          assert 0 <= k < |r| && Lower(r[k].name) == Lower(es[i].name);
        }
      }
      assert forall i :: 0 <= i < |es| ==> exists k :: 0 <= k < |r| && Lower(r[k].name) == Lower(es[i].name);
      assert r == UniqueByName(es);
    }
  }
}
