/** The in-memory language store: a fixed list of language records seeded by
    the repository's constructor, and a first-match lookup by identifier. */
module Languages {

  import opened Wrappers

  /** One language record: its identifier, the welcome message shown before
      a user's name, and a short language tag. */
  datatype Lang = Lang(id: int, welcomeMessage: string, code: string)

  /** The record the lookup accepts for `id`. The requested identifier is a
      boxed integer that may be absent (`None` stands for `null`); a present
      identifier equals a record's id exactly when the two integers are equal,
      and an absent one equals no record's id. */
  predicate Matches(l: Lang, id: Option<int>)
  {
    id == Some(l.id)
  }

  /** No two records of `s` share an identifier. */
  predicate IdsDistinct(s: seq<Lang>)
  {
    forall i, j :: 0 <= i < j < |s| ==> s[i].id != s[j].id
  }

  /** The two records the store is seeded with, in insertion order. */
  function Seed(): seq<Lang>
  {
    [Lang(1, "Hello", "en"), Lang(2, "Cześć", "pl")]
  }

  /** First-match search: the leftmost record of `s` whose id matches `id`,
      or `None` when no record matches. */
  function FindFirst(s: seq<Lang>, id: Option<int>): (r: Option<Lang>)
    ensures r.None? <==> forall i :: 0 <= i < |s| ==> !Matches(s[i], id)
    ensures r.Some? ==> exists k :: 0 <= k < |s| && s[k] == r.value && Matches(s[k], id) &&
                                    forall j :: 0 <= j < k ==> !Matches(s[j], id)
  {
    if s == [] then None
    else if Matches(s[0], id) then Some(s[0])
    else
      var r := FindFirst(s[1..], id);
      assert forall i :: 1 <= i < |s| ==> s[i] == s[1..][i - 1];
      r
  }

  /** The records of `s` whose id matches `id`, in their order in `s`:
      the `filter` stage of the repository's lookup. */
  function Filter(s: seq<Lang>, id: Option<int>): (r: seq<Lang>)
    ensures |r| <= |s|
    ensures forall i :: 0 <= i < |r| ==> r[i] in s && Matches(r[i], id)
    ensures forall i :: 0 <= i < |s| && Matches(s[i], id) ==> s[i] in r
    ensures |s| == 1 ==> r == if Matches(s[0], id) then s else []
    ensures r != [] ==> exists k :: 0 <= k < |s| && r[0] == s[k] && Matches(s[k], id) &&
                                    forall j :: 0 <= j < k ==> !Matches(s[j], id)
  {
    if s == [] then []
    else
      var rest := Filter(s[1..], id);
      assert forall i :: 1 <= i < |s| ==> s[i] == s[1..][i - 1];
      if Matches(s[0], id) then [s[0]] + rest else rest
  }

  /** The filter stage keeps encounter order: filtering a concatenation is
      filtering each part and concatenating the results. Together with
      `Filter`'s behaviour on a single record, this determines the result's
      order and the number of times each record appears. */
  lemma {:induction false} FilterDistributes(a: seq<Lang>, b: seq<Lang>, id: Option<int>)
    ensures Filter(a + b, id) == Filter(a, id) + Filter(b, id)
  {
    if a == [] {
      assert a + b == b;
    } else {
      assert (a + b)[0] == a[0] && (a + b)[1..] == a[1..] + b;
      FilterDistributes(a[1..], b, id);
    }
  }

  /** The `findFirst` stage of the repository's lookup: the first element of
      a sequence, or `None` when it is empty. */
  function Head(s: seq<Lang>): (r: Option<Lang>)
    ensures r.None? <==> s == []
    ensures r.Some? ==> r.value == s[0]
  {
    if s == [] then None else Some(s[0])
  }

  /** The first-match search agrees with the filter-then-take-first chain it
      models. */
  lemma FindFirstIsHeadOfFilter(s: seq<Lang>, id: Option<int>)
    ensures FindFirst(s, id) == Head(Filter(s, id))
  {
  }

  /** When ids are distinct, a record that matches is the one the search
      returns: the first match is the unique match. */
  lemma FindFirstUnique(s: seq<Lang>, id: Option<int>, k: nat)
    requires IdsDistinct(s)
    requires k < |s| && Matches(s[k], id)
    ensures FindFirst(s, id) == Some(s[k])
  {
  }

  /** The seeded records have distinct identifiers. */
  lemma SeedIdsDistinct()
    ensures IdsDistinct(Seed())
    ensures |Seed()| == 2
  {
  }

  /** Looking up the seeded identifiers finds their records. */
  lemma SeedLookupFound()
    ensures FindFirst(Seed(), Some(1)) == Some(Lang(1, "Hello", "en"))
    ensures FindFirst(Seed(), Some(2)) == Some(Lang(2, "Cześć", "pl"))
  {
  }

  /** Looking up any identifier other than 1 and 2, or `null`, finds nothing
      in the seeded store. */
  lemma SeedLookupMissing(id: Option<int>)
    requires id != Some(1) && id != Some(2)
    ensures FindFirst(Seed(), id) == None
  {
  }

  /** The repository: a list of language records built once by the
      constructor and only read afterwards. */
  class LangRepository {
    const languages: seq<Lang>

    /** Builds the list in place: starts empty and appends the two seed
        records in order. */
    constructor ()
      ensures languages == Seed()
      ensures IdsDistinct(languages)
    {
      var list: seq<Lang> := [];
      list := list + [Lang(1, "Hello", "en")];
      list := list + [Lang(2, "Cześć", "pl")];
      languages := list;
    }

    /** The leftmost record of `languages` whose id matches `id`, or `None`.
        A function of a constant list: looking up changes nothing. */
    function FindById(id: Option<int>): (r: Option<Lang>)
      ensures r.Some? ==> r.value in languages && Matches(r.value, id)
      ensures r.Some? ==> exists k :: 0 <= k < |languages| && languages[k] == r.value &&
                                      forall j :: 0 <= j < k ==> !Matches(languages[j], id)
      ensures r.None? <==> forall l :: l in languages ==> !Matches(l, id)
      ensures id.None? ==> r.None?
    {
      FindFirst(languages, id)
    }
  }
}
