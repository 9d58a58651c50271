/**
 * The Android collaborators of IdentityProvider, abstracted: the resource bundle and `Uri.parse`.
 */
module AndroidResources {
  import opened Failures

  /** A parsed URI. URI syntax is not modelled: a `Uri` only remembers the text it came from. */
  datatype Uri = Uri(text: string)

  /** `Uri.parse`, which never fails: malformed text yields a URI that fails later, on use. */
  function Parse(s: string): Uri {
    Uri(s)
  }

  /**
   * A resource bundle: the boolean and string resources by id. A lookup of an id that is
   * not there, or not of the wanted kind, raises `NotFound`.
   */
  datatype Resources = Resources(bools: map<int, bool>, strings: map<int, string>) {

    function GetBoolean(id: int): Result<bool, Exception> {
      if id in bools then Success(bools[id]) else Failure(NotFound(id))
    }

    function GetString(id: int): Result<string, Exception> {
      if id in strings then Success(strings[id]) else Failure(NotFound(id))
    }
  }

  /** One lookup in a bundle: a boolean or a string resource. */
  datatype Lookup = BoolLookup(id: int) | StringLookup(id: int)

  predicate Has(res: Resources, l: Lookup) {
    match l
    case BoolLookup(id) => id in res.bools
    case StringLookup(id) => id in res.strings
  }

  /** The id of the first lookup of `ls` that the bundle cannot answer, if any. */
  function FirstMissing(res: Resources, ls: seq<Lookup>): (r: Option<int>)
    ensures r.None? <==> forall i :: 0 <= i < |ls| ==> Has(res, ls[i])
    ensures r.Some? ==> exists i :: 0 <= i < |ls| && !Has(res, ls[i]) && ls[i].id == r.value
                                    && forall j :: 0 <= j < i ==> Has(res, ls[j])
  {
    if |ls| == 0 then None
    else if !Has(res, ls[0]) then Some(ls[0].id)
    else
      var r := FirstMissing(res, ls[1..]);
      assert r.Some? ==> exists i :: 0 < i < |ls| && !Has(res, ls[i]) && ls[i].id == r.value
                                     && forall j :: 0 <= j < i ==> Has(res, ls[j]) by {
        if r.Some? {
          var i :| 0 <= i < |ls[1..]| && !Has(res, ls[1..][i]) && ls[1..][i].id == r.value
                   && forall j :: 0 <= j < i ==> Has(res, ls[1..][j]);
          assert forall j :: 0 < j < i + 1 ==> Has(res, ls[j]) by {
            forall j | 0 < j < i + 1 ensures Has(res, ls[j]) {
              assert ls[j] == ls[1..][j - 1];
            }
          }
        }
      }
      r
  }

  /** A lookup sequence can be answered in pieces: the first miss of `a + b` is `a`'s, else `b`'s. */
  lemma {:induction false} FirstMissingAppend(res: Resources, a: seq<Lookup>, b: seq<Lookup>)
    ensures FirstMissing(res, a + b) == if FirstMissing(res, a).Some? then FirstMissing(res, a) else FirstMissing(res, b)
    decreases |a|
  {
    if |a| == 0 {
      assert a + b == b;
    } else {
      assert (a + b)[0] == a[0];
      assert (a + b)[1..] == a[1..] + b;
      if Has(res, a[0]) {
        FirstMissingAppend(res, a[1..], b);
      }
    }
  }
}
