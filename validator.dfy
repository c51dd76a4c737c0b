/** Structural validation of a candidate solution (src/core/validator.py):
    a route that leaves the depot, visits each other location once and comes
    back, with one speed and one landing flag per leg. The validator object
    only remembers the depot identifier, so it is modelled by functions that
    take that identifier. */
module Validation {
  import opened Common
  import opened Config

  /** Why a solution is rejected, in the order the checks run. */
  datatype Reason =
    | TooShort           // fewer than three stops
    | NotDepotBounded    // does not start and end at the depot
    | InconsistentSizes  // not one speed and one landing flag per leg
    | DepotRepeated      // the depot occurs other than at both ends
    | NothingVisited     // no location between the two depot stops
    | Duplicates         // some location is visited twice

  datatype Verdict = Accepted | Rejected(reason: Reason)

  /** The message the source returns with each verdict. */
  function Message(v: Verdict): string {
    match v
    case Accepted => "Solução válida"
    case Rejected(TooShort) => "Rota deve ter pelo menos 3 pontos"
    case Rejected(NotDepotBounded) => "Rota deve começar e terminar no Unibrasil"
    case Rejected(InconsistentSizes) => "Tamanhos inconsistentes"
    case Rejected(DepotRepeated) => "Unibrasil deve aparecer apenas no início e fim"
    case Rejected(NothingVisited) => "Pelo menos um CEP deve ser visitado"
    case Rejected(Duplicates) => "CEPs duplicados na rota"
  }

  /** Each verdict has its own message, so the message returned tells
      which check decided. */
  lemma MessageIdentifiesVerdict(v1: Verdict, v2: Verdict)
    ensures Message(v1) == Message(v2) <==> v1 == v2
  {
  }

  /** The stops strictly between the first and the last, `rota[1:-1]`. */
  function Interior<T>(route: seq<T>): (r: seq<T>)
    ensures |route| >= 2 ==> |r| == |route| - 2
    ensures |route| >= 2 ==> forall k :: 0 <= k < |r| ==> r[k] == route[k + 1]
    ensures |route| < 2 ==> r == []
  {
    if |route| < 2 then [] else route[1..|route| - 1]
  }

  /** What an accepted solution looks like: depot at both ends and nowhere
      else, at least one location visited, none twice, and one speed and
      one landing flag per leg. */
  predicate WellFormed<T(==)>(depot: T, route: seq<T>, nSpeeds: int, nLandings: int) {
    && |route| >= 3
    && route[0] == depot && route[|route| - 1] == depot
    && nSpeeds == |route| - 1 && nLandings == |route| - 1
    && depot !in Interior(route)
    && Distinct(Interior(route))
  }

  /** `validar_solucao_ids`: the checks of the identifier-keyed validator, in
      the source's order. */
  function ValidateIds(depot: int, route: seq<int>, speeds: seq<int>, landings: seq<bool>): (v: Verdict)
    ensures |route| < 3 ==> v == Rejected(TooShort)
    ensures v.Rejected? && v.reason == NotDepotBounded ==>
      |route| >= 3 && (route[0] != depot || route[|route| - 1] != depot)
  {
    if |route| < 3 then Rejected(TooShort)
    else if route[0] != depot || route[|route| - 1] != depot then Rejected(NotDepotBounded)
    else if |route| != |speeds| + 1 || |route| != |landings| + 1 then Rejected(InconsistentSizes)
    else if multiset(route)[depot] != 2 then Rejected(DepotRepeated)
    else if |set x | x in Interior(route)| < 1 then Rejected(NothingVisited)
    else if |set x | x in Interior(route)| != |route| - 2 then Rejected(Duplicates)
    else Accepted
  }

  /** `validar_solucao`: the same checks on location codes against the fixed
      depot code, without the length check in front. */
  function ValidateCodes(route: seq<string>, speeds: seq<int>, landings: seq<bool>): (v: Verdict)
    ensures v != Rejected(TooShort)
    ensures |route| == 0 ==> v == Rejected(NotDepotBounded)
  {
    if |route| == 0 || route[0] != DEPOT_CEP || route[|route| - 1] != DEPOT_CEP then Rejected(NotDepotBounded)
    else if |route| != |speeds| + 1 || |route| != |landings| + 1 then Rejected(InconsistentSizes)
    else if multiset(route)[DEPOT_CEP] != 2 then Rejected(DepotRepeated)
    else if |set x | x in Interior(route)| < 1 then Rejected(NothingVisited)
    else if |set x | x in Interior(route)| != |route| - 2 then Rejected(Duplicates)
    else Accepted
  }

  /** With the depot at both ends, it occurs exactly twice iff it is absent
      from the interior. */
  lemma {:induction false} DepotCountTwice<T>(depot: T, route: seq<T>)
    requires |route| >= 2 && route[0] == depot && route[|route| - 1] == depot
    ensures multiset(route)[depot] == multiset(Interior(route))[depot] + 2
    ensures multiset(route)[depot] == 2 <==> depot !in Interior(route)
  {
    var mid := Interior(route);
    assert route == [depot] + mid + [depot];
    assert multiset(route) == multiset([depot]) + multiset(mid) + multiset([depot]);
    assert multiset(route)[depot] == multiset(mid)[depot] + 2;
  }

  /** A non-empty sequence has a non-empty set of elements. */
  lemma NonEmptyElements<T>(s: seq<T>)
    requires |s| >= 1
    ensures |set x | x in s| >= 1
  {
    var st := set x | x in s;
    assert s[0] in st;
    assert st == {s[0]} + (st - {s[0]});
  }

  /** The elements of the empty sequence form the empty set. */
  lemma EmptyElements<T>(s: seq<T>)
    requires s == []
    ensures |set x | x in s| == 0
  {
    assert (set x | x in s) == {};
  }

  /** The identifier-keyed validator accepts exactly the well-formed
      solutions. */
  lemma ValidateIdsAcceptsWellFormed(depot: int, route: seq<int>, speeds: seq<int>, landings: seq<bool>)
    ensures ValidateIds(depot, route, speeds, landings) == Accepted <==>
      WellFormed(depot, route, |speeds|, |landings|)
  {
    if |route| >= 3 && route[0] == depot && route[|route| - 1] == depot {
      DepotCountTwice(depot, route);
      DistinctIffSetSize(Interior(route));
      NonEmptyElements(Interior(route));
    }
  }

  /** The identifier-keyed validator never answers "nothing visited": its
      length check already rules out a route without an interior. */
  lemma ValidateIdsNeverNothingVisited(depot: int, route: seq<int>, speeds: seq<int>, landings: seq<bool>)
    ensures ValidateIds(depot, route, speeds, landings) != Rejected(NothingVisited)
  {
    if |route| >= 3 {
      NonEmptyElements(Interior(route));
    }
  }

  /** The code-keyed validator accepts exactly the well-formed solutions over
      the depot code. */
  lemma ValidateCodesAcceptsWellFormed(route: seq<string>, speeds: seq<int>, landings: seq<bool>)
    ensures ValidateCodes(route, speeds, landings) == Accepted <==>
      WellFormed(DEPOT_CEP, route, |speeds|, |landings|)
  {
    if |route| >= 1 && route[0] == DEPOT_CEP && route[|route| - 1] == DEPOT_CEP {
      if |route| >= 2 {
        DepotCountTwice(DEPOT_CEP, route);
        DistinctIffSetSize(Interior(route));
      }
      if |route| >= 3 {
        NonEmptyElements(Interior(route));
      } else {
        EmptyElements(Interior(route));
      }
    }
  }

  /** The code-keyed validator does reach "nothing visited": a route that
      leaves the depot and comes straight back. */
  lemma ValidateCodesNothingVisitedReachable()
    ensures ValidateCodes([DEPOT_CEP, DEPOT_CEP], [MIN_SPEED], [false]) == Rejected(NothingVisited)
  {
    var route := [DEPOT_CEP, DEPOT_CEP];
    DepotCountTwice(DEPOT_CEP, route);
    EmptyElements(Interior(route));
  }

  /** On a well-formed route both validators agree once the codes are read
      as identifiers. */
  lemma ValidatorsAgree(route: seq<string>, ids: seq<int>, depot: int, speeds: seq<int>, landings: seq<bool>)
    requires |ids| == |route|
    requires forall i, j :: 0 <= i < |route| && 0 <= j < |route| ==> (route[i] == route[j] <==> ids[i] == ids[j])
    requires forall i :: 0 <= i < |route| ==> (route[i] == DEPOT_CEP <==> ids[i] == depot)
    ensures (ValidateCodes(route, speeds, landings) == Accepted) <==> (ValidateIds(depot, ids, speeds, landings) == Accepted)
  {
    ValidateCodesAcceptsWellFormed(route, speeds, landings);
    ValidateIdsAcceptsWellFormed(depot, ids, speeds, landings);
    if |route| >= 3 {
      var r := Interior(route);
      var d := Interior(ids);
      assert forall k :: 0 <= k < |r| ==> r[k] == route[k + 1] && d[k] == ids[k + 1];
      assert DEPOT_CEP in r <==> depot in d;
      assert Distinct(r) <==> Distinct(d);
    }
  }
}
