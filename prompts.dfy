/** The prompt records and the pure operations on the ordered list of them:
    first-match lookup (`find`), the in-place overwrite done by `save`, the
    removal filter of the list's click handler and the title search of
    `renderList`. */
module Prompts {
  import opened Text
  import opened Sequences

  datatype Option<T> = None | Some(value: T)

  /** One prompt, the record `{id, title, content}` kept in the list. */
  datatype Prompt = Prompt(id: string, title: string, content: string)

  function Ids(ps: seq<Prompt>): set<string> {
    set p | p in ps :: p.id
  }

  /** No two prompts of the list share an id. */
  predicate DistinctIds(ps: seq<Prompt>) {
    forall i, j :: 0 <= i < j < |ps| ==> ps[i].id != ps[j].id
  }

  lemma IdsCons(p: Prompt, ps: seq<Prompt>)
    ensures Ids([p] + ps) == {p.id} + Ids(ps)
  {
    assert forall q :: q in [p] + ps <==> q == p || q in ps;
  }

  /** `find((p) => p.id === id)`: the index of the first prompt with that id,
      or nothing when no prompt has it. */
  function FindIndex(ps: seq<Prompt>, id: string): (r: Option<nat>)
    ensures r.None? <==> id !in Ids(ps)
    ensures r.Some? ==> r.value < |ps| && ps[r.value].id == id
    ensures r.Some? ==> forall j :: 0 <= j < r.value ==> ps[j].id != id
  {
    if ps == [] then None
    else
      assert ps == [ps[0]] + ps[1..];
      IdsCons(ps[0], ps[1..]);
      if ps[0].id == id then Some(0)
      else match FindIndex(ps[1..], id)
        case None => None
        case Some(k) => Some(k + 1)
  }

  /** The overwrite `save` performs on the prompt it finds: the first prompt
      whose id is `id` takes the new title and content. */
  function UpdateFirst(ps: seq<Prompt>, id: string, title: string, content: string): (r: seq<Prompt>)
    ensures |r| == |ps|
    ensures forall j :: 0 <= j < |ps| ==> r[j].id == ps[j].id
  {
    if ps == [] then []
    else
      var head := if ps[0].id == id then ps[0].(title := title, content := content) else ps[0];
      var rest := if ps[0].id == id then ps[1..] else UpdateFirst(ps[1..], id, title, content);
      [head] + rest
  }

  /** The overwrite keeps the set of ids, and distinct ids stay distinct. */
  lemma UpdateFirstKeepsIds(ps: seq<Prompt>, id: string, title: string, content: string)
    ensures Ids(UpdateFirst(ps, id, title, content)) == Ids(ps)
    ensures DistinctIds(ps) ==> DistinctIds(UpdateFirst(ps, id, title, content))
  {
    SameIdsAt(ps, UpdateFirst(ps, id, title, content));
  }

  /** With no prompt carrying the id, the overwrite leaves the list as it is. */
  lemma {:induction false} UpdateFirstAbsent(ps: seq<Prompt>, id: string, title: string, content: string)
    requires id !in Ids(ps)
    ensures UpdateFirst(ps, id, title, content) == ps
  {
    if ps != [] {
      assert ps[0] in ps;
      assert ps == [ps[0]] + ps[1..];
      IdsCons(ps[0], ps[1..]);
      UpdateFirstAbsent(ps[1..], id, title, content);
    }
  }

  /** The overwrite replaces the prompt at the first index with the id by one
      with the new title and content, and keeps the rest of the list. */
  lemma {:induction false} UpdateFirstAt(ps: seq<Prompt>, id: string, title: string, content: string, i: nat)
    requires i < |ps| && ps[i].id == id
    requires forall j :: 0 <= j < i ==> ps[j].id != id
    ensures UpdateFirst(ps, id, title, content)[i] == Prompt(id, title, content)
    ensures forall j :: 0 <= j < |ps| && j != i ==> UpdateFirst(ps, id, title, content)[j] == ps[j]
  {
    var r := UpdateFirst(ps, id, title, content);
    if i == 0 {
      assert r == [ps[0].(title := title, content := content)] + ps[1..];
    } else {
      var tail := ps[1..];
      var rest := UpdateFirst(tail, id, title, content);
      assert r == [ps[0]] + rest;
      forall j | 0 <= j < i - 1 ensures tail[j].id != id {
        assert tail[j] == ps[j + 1];
      }
      UpdateFirstAt(tail, id, title, content, i - 1);
      forall j | 0 < j < |ps| ensures r[j] == rest[j - 1] && tail[j - 1] == ps[j] {
      }
    }
  }

  /** The overwrite touches the first prompt with the id and nothing else;
      with no such prompt the list is unchanged. */
  lemma UpdateFirstChangesOnlyFound(ps: seq<Prompt>, id: string, title: string, content: string)
    ensures FindIndex(ps, id).None? ==> UpdateFirst(ps, id, title, content) == ps
    ensures FindIndex(ps, id).Some? ==> var i := FindIndex(ps, id).value;
      && UpdateFirst(ps, id, title, content)[i] == Prompt(id, title, content)
      && forall j :: 0 <= j < |ps| && j != i ==> UpdateFirst(ps, id, title, content)[j] == ps[j]
  {
    match FindIndex(ps, id)
    case None =>
      UpdateFirstAbsent(ps, id, title, content);
    case Some(i) =>
      UpdateFirstAt(ps, id, title, content, i);
  }

  /** Two lists with the same id at every position have the same ids, and
      the second has distinct ids when the first has. */
  lemma SameIdsAt(ps: seq<Prompt>, qs: seq<Prompt>)
    requires |qs| == |ps| && forall j :: 0 <= j < |ps| ==> qs[j].id == ps[j].id
    ensures Ids(qs) == Ids(ps)
    ensures DistinctIds(ps) ==> DistinctIds(qs)
  {
    forall x | x in Ids(ps) ensures x in Ids(qs) {
      var p :| p in ps && p.id == x;
      var j :| 0 <= j < |ps| && ps[j] == p;
      assert qs[j] in qs;
    }
    forall x | x in Ids(qs) ensures x in Ids(ps) {
      var q :| q in qs && q.id == x;
      var j :| 0 <= j < |qs| && qs[j] == q;
      assert ps[j] in ps;
    }
  }

  /** The list after `prompts.filter((p) => p.id !== id)`. */
  function RemoveId(ps: seq<Prompt>, id: string): (r: seq<Prompt>)
    ensures IsSubsequence(r, ps)
    ensures forall p :: p in r <==> p in ps && p.id != id
    ensures forall p :: multiset(r)[p] == if p.id != id then multiset(ps)[p] else 0
    ensures id !in Ids(r)
    ensures id !in Ids(ps) ==> r == ps
    ensures DistinctIds(ps) ==> DistinctIds(r)
  {
    var r := Keep(ps, (p: Prompt) => p.id != id);
    assert id !in Ids(ps) ==> forall i :: 0 <= i < |ps| ==> ps[i].id != id by {
      if id !in Ids(ps) {
        forall i | 0 <= i < |ps| ensures ps[i].id != id {
          assert ps[i] in ps;
        }
      }
    }
    assert DistinctIds(ps) ==> DistinctIds(r) by {
      if DistinctIds(ps) {
        SubsequenceDistinct(r, ps);
      }
    }
    r
  }

  lemma {:induction false} SubsequenceDistinct(a: seq<Prompt>, b: seq<Prompt>)
    requires IsSubsequence(a, b) && DistinctIds(b)
    ensures DistinctIds(a)
    decreases |b|
  {
    if a != [] && b != [] {
      assert DistinctIds(b[1..]);
      if a[0] == b[0] && IsSubsequence(a[1..], b[1..]) {
        SubsequenceDistinct(a[1..], b[1..]);
        SubsequenceMembers(a[1..], b[1..]);
        forall j | 0 < j < |a| ensures a[0].id != a[j].id {
          assert a[j] in a[1..];
          var k :| 0 <= k < |b[1..]| && b[1..][k] == a[j];
          assert b[k + 1] == a[j];
        }
      } else {
        SubsequenceDistinct(a, b[1..]);
      }
    }
  }

  /** A new prompt whose id is not yet used can go at the front. */
  lemma PrependDistinct(p: Prompt, ps: seq<Prompt>)
    requires DistinctIds(ps) && p.id !in Ids(ps)
    ensures DistinctIds([p] + ps)
  {
    forall j | 0 <= j < |ps| ensures ps[j].id != p.id {
      assert ps[j] in ps;
    }
  }

  /** The search of `renderList`: a prompt is shown when its lower-cased title
      includes the lower-cased, trimmed query. */
  predicate TitleMatches(p: Prompt, query: string) {
    Includes(Lower(p.title), Trim(Lower(query)))
  }

  function Filter(ps: seq<Prompt>, query: string): (r: seq<Prompt>)
    ensures IsSubsequence(r, ps)
    ensures forall p :: p in r <==> p in ps && TitleMatches(p, query)
    ensures forall p :: multiset(r)[p] == if TitleMatches(p, query) then multiset(ps)[p] else 0
    ensures (forall i :: 0 <= i < |ps| ==> TitleMatches(ps[i], query)) ==> r == ps
  {
    Keep(ps, (p: Prompt) => TitleMatches(p, query))
  }

  /** An empty or all-blank query shows the whole list, in its order. */
  lemma BlankQueryShowsAll(ps: seq<Prompt>, query: string)
    requires AllSpace(query)
    ensures Filter(ps, query) == ps
  {
    BlankNeedle(query);
    forall i | 0 <= i < |ps| ensures TitleMatches(ps[i], query) {
      EmptyIncluded(Lower(ps[i].title));
    }
  }

  /** The search needle may equally be read as the lower-cased trimmed
      query: lower-casing and trimming commute. */
  lemma FilterByTrimmedLowerQuery(ps: seq<Prompt>, query: string)
    ensures forall p :: p in Filter(ps, query) <==> p in ps && Includes(Lower(p.title), Lower(Trim(query)))
  {
    LowerTrimCommute(query);
  }

  function Example(): seq<Prompt> {
    [Prompt("1", "Alpha", "x"), Prompt("2", "beta", "x"), Prompt("3", "Gamma", "x")]
  }

  lemma ExampleTitlesLowered()
    ensures Lower("Alpha") == "alpha" && Lower("beta") == "beta" && Lower("Gamma") == "gamma"
  {
  }

  lemma ExampleNeedles()
    ensures Trim(Lower("a")) == "a" && Trim(Lower("Be")) == "be"
  {
    assert Lower("a") == "a";
    TrimUnpadded("a");
    assert Lower("Be") == "be";
    TrimUnpadded("be");
  }

  lemma ExampleMatchesA()
    ensures TitleMatches(Example()[0], "a") && TitleMatches(Example()[1], "a") && TitleMatches(Example()[2], "a")
  {
    ExampleTitlesLowered();
    ExampleNeedles();
    assert OccursAt("alpha", "a", 0) && OccursAt("beta", "a", 3) && OccursAt("gamma", "a", 1);
  }

  lemma ExampleMatchesBe()
    ensures !TitleMatches(Example()[0], "Be") && TitleMatches(Example()[1], "Be") && !TitleMatches(Example()[2], "Be")
  {
    ExampleTitlesLowered();
    ExampleNeedles();
    assert OccursAt("beta", "be", 0);
    NotIncludedWithoutFirstChar("alpha", "be");
    NotIncludedWithoutFirstChar("gamma", "be");
  }

  /** Searching titles "Alpha", "beta", "Gamma" for "a" matches all three,
      whatever their case. */
  lemma FilterExampleAllMatch()
    ensures Filter(Example(), "a") == Example()
  {
    ExampleMatchesA();
    assert forall i :: 0 <= i < |Example()| ==> TitleMatches(Example()[i], "a");
  }

  /** Searching the same titles for "Be" finds only "beta". */
  lemma FilterExampleOneMatch()
    ensures Filter(Example(), "Be") == [Example()[1]]
  {
    var ps := Example();
    var r := Filter(ps, "Be");
    ExampleMatchesBe();
    assert multiset(r) == multiset{ps[1]};
    assert |r| == 1;
    assert r[0] in r;
  }

  /** The empty query shows them all, in order. */
  lemma FilterExampleEmptyQuery()
    ensures Filter(Example(), "") == Example()
  {
    BlankQueryShowsAll(Example(), "");
  }
}
