/** The bidirectional registry between location codes (CEPs) and compact
    integer identifiers (src/utils/id_mapper.py). */
module IdMapping {
  import opened Common

  /** Both dictionaries of the source are insertion-ordered; identifiers are
      inserted as 0, 1, 2, ..., so iterating either dictionary visits the
      entries in ascending identifier order, which is how the loops below
      walk them. */
  class IdMapper {
    var cepToId: map<string, int>
    var idToCep: map<int, string>
    var nextId: int
    /** `None` until the depot is registered. */
    var depotId: Option<int>

    /** The two maps are mutual inverses and the identifiers in use are
        exactly 0 .. nextId - 1. */
    ghost predicate Valid()
      reads this
    {
      && nextId >= 0
      && |cepToId| == nextId
      && (forall i :: i in idToCep <==> 0 <= i < nextId)
      && (forall c :: c in cepToId ==> cepToId[c] in idToCep && idToCep[cepToId[c]] == c)
      && (forall i :: i in idToCep ==> idToCep[i] in cepToId && cepToId[idToCep[i]] == i)
      && (depotId.Some? ==> depotId.value in idToCep)
    }

    constructor ()
      ensures Valid()
      ensures cepToId == map[] && idToCep == map[] && nextId == 0 && depotId == None
    {
      cepToId := map[];
      idToCep := map[];
      nextId := 0;
      depotId := None;
    }

    /** Registers a code, returning its identifier; a known code keeps its
        identifier and nothing changes. */
    method AddCep(cep: string) returns (id: int)
      requires Valid()
      modifies this
      ensures Valid()
      ensures depotId == old(depotId)
      ensures cep in cepToId && cepToId[cep] == id && id in idToCep && idToCep[id] == cep
      ensures old(cep in cepToId) ==>
        id == old(cepToId[cep]) && cepToId == old(cepToId) && idToCep == old(idToCep) && nextId == old(nextId)
      ensures old(cep !in cepToId) ==>
        && id == old(nextId) && nextId == old(nextId) + 1
        && cepToId == old(cepToId)[cep := id] && idToCep == old(idToCep)[id := cep]
    {
      if cep !in cepToId {
        assert nextId !in idToCep;
        cepToId := cepToId[cep := nextId];
        idToCep := idToCep[nextId := cep];
        nextId := nextId + 1;
      }
      id := cepToId[cep];
    }

    /** Identifier of a code, or -1 for an unknown code. */
    function IdOf(cep: string): (id: int)
      reads this
      requires Valid()
      ensures id == -1 <==> cep !in cepToId
      ensures cep in cepToId ==> 0 <= id < nextId && idToCep[id] == cep
    {
      if cep in cepToId then cepToId[cep] else -1
    }

    /** Code of an identifier, or "" for an unknown identifier. */
    function CepOf(id: int): (cep: string)
      reads this
      requires Valid()
      ensures id in idToCep <==> 0 <= id < nextId
      ensures id in idToCep ==> cep in cepToId && cepToId[cep] == id
      ensures id !in idToCep ==> cep == ""
    {
      if id in idToCep then idToCep[id] else ""
    }

    /** All identifiers, in insertion (ascending) order. */
    function AllIds(): (ids: seq<int>)
      reads this
      requires Valid()
      ensures forall i :: i in ids <==> i in idToCep
      ensures forall k, l :: 0 <= k < l < |ids| ==> ids[k] < ids[l]
    {
      Range(0, nextId)
    }

    /** Number of registered codes. */
    function Count(): (n: int)
      reads this
      requires Valid()
      ensures n == nextId && n == |AllIds()|
    {
      |cepToId|
    }

    /** Registers the depot code (idempotently) and records its identifier. */
    method SetDepot(cep: string)
      requires Valid()
      modifies this
      ensures Valid()
      ensures cep in cepToId && depotId == Some(cepToId[cep])
      ensures old(cep in cepToId) ==> cepToId == old(cepToId) && idToCep == old(idToCep) && nextId == old(nextId)
      ensures old(cep !in cepToId) ==> nextId == old(nextId) + 1 && cepToId == old(cepToId)[cep := old(nextId)]
    {
      var id := AddCep(cep);
      depotId := Some(id);
    }

    function IsDepotId(id: int): (b: bool)
      reads this
      ensures b <==> depotId.Some? && depotId.value == id
    {
      depotId == Some(id)
    }

    function RouteToIds(route: seq<string>): (ids: seq<int>)
      reads this
      requires Valid()
      ensures |ids| == |route|
      ensures forall k :: 0 <= k < |route| ==> ids[k] == IdOf(route[k])
    {
      seq(|route|, k requires 0 <= k < |route| && Valid() reads this => IdOf(route[k]))
    }

    function RouteToCeps(ids: seq<int>): (route: seq<string>)
      reads this
      requires Valid()
      ensures |route| == |ids|
      ensures forall k :: 0 <= k < |ids| ==> route[k] == CepOf(ids[k])
    {
      seq(|ids|, k requires 0 <= k < |ids| && Valid() reads this => CepOf(ids[k]))
    }

    /** Converting a route of registered codes to identifiers and back gives
        the route itself. */
    lemma RouteRoundTrip(route: seq<string>)
      requires Valid()
      requires forall c :: c in route ==> c in cepToId
      ensures RouteToCeps(RouteToIds(route)) == route
    {
      var ids := RouteToIds(route);
      forall k | 0 <= k < |route| ensures RouteToCeps(ids)[k] == route[k] {
        assert route[k] in cepToId;
      }
    }

    /** Converting registered identifiers to codes and back gives them back. */
    lemma IdsRoundTrip(ids: seq<int>)
      requires Valid()
      requires forall i :: i in ids ==> 0 <= i < nextId
      ensures RouteToIds(RouteToCeps(ids)) == ids
    {
      var route := RouteToCeps(ids);
      forall k | 0 <= k < |ids| ensures RouteToIds(route)[k] == ids[k] {
        assert ids[k] in ids;
      }
    }

    /** Every registered code except the depot's, in insertion order. */
    method CepsExcludingDepot() returns (ceps: seq<string>)
      requires Valid()
      ensures forall c :: c in ceps <==> c in cepToId && !IsDepotId(cepToId[c])
      ensures |ceps| == if depotId.Some? then nextId - 1 else nextId
      ensures Distinct(ceps)
    {
      ceps := [];
      ghost var ids: seq<int> := [];
      for i := 0 to nextId
        invariant |ceps| == |ids|
        invariant forall k :: 0 <= k < |ids| ==> 0 <= ids[k] < i
        invariant forall k :: 0 <= k < |ids| ==> ceps[k] == idToCep[ids[k]]
        invariant forall k, l :: 0 <= k < l < |ids| ==> ids[k] < ids[l]
        invariant forall j :: j in ids <==> 0 <= j < i && !IsDepotId(j)
        invariant |ids| == if depotId.Some? && depotId.value < i then i - 1 else i
      {
        if !IsDepotId(i) {
          ceps := ceps + [idToCep[i]];
          ids := ids + [i];
        }
      }
      CepsOfIds(ids, ceps);
    }

    /** The codes of ascending, depot-free identifiers are the registered
        non-depot codes, each once. */
    lemma CepsOfIds(ids: seq<int>, ceps: seq<string>)
      requires Valid()
      requires |ceps| == |ids|
      requires forall k :: 0 <= k < |ids| ==> 0 <= ids[k] < nextId
      requires forall k :: 0 <= k < |ids| ==> ceps[k] == idToCep[ids[k]]
      requires forall k, l :: 0 <= k < l < |ids| ==> ids[k] < ids[l]
      requires forall j :: j in ids <==> 0 <= j < nextId && !IsDepotId(j)
      ensures forall c :: c in ceps <==> c in cepToId && !IsDepotId(cepToId[c])
      ensures Distinct(ceps)
    {
      forall c | c in cepToId && !IsDepotId(cepToId[c]) ensures c in ceps {
        var k :| 0 <= k < |ids| && ids[k] == cepToId[c];
        assert ceps[k] == c;
      }
      forall c | c in ceps ensures c in cepToId && !IsDepotId(cepToId[c]) {
        var k :| 0 <= k < |ceps| && ceps[k] == c;
        assert ids[k] in ids;
      }
      forall k, l | 0 <= k < l < |ceps| ensures ceps[k] != ceps[l] {
        assert cepToId[ceps[k]] == ids[k];
        assert cepToId[ceps[l]] == ids[l];
      }
    }

    /** Every registered identifier except the depot's, in ascending order. */
    method IdsExcludingDepot() returns (ids: seq<int>)
      requires Valid()
      ensures forall i :: i in ids <==> 0 <= i < nextId && !IsDepotId(i)
      ensures forall k, l :: 0 <= k < l < |ids| ==> ids[k] < ids[l]
      ensures |ids| == if depotId.Some? then nextId - 1 else nextId
    {
      ids := [];
      for i := 0 to nextId
        invariant forall k :: 0 <= k < |ids| ==> 0 <= ids[k] < i
        invariant forall k, l :: 0 <= k < l < |ids| ==> ids[k] < ids[l]
        invariant forall j :: j in ids <==> 0 <= j < i && !IsDepotId(j)
        invariant |ids| == if depotId.Some? && depotId.value < i then i - 1 else i
      {
        if !IsDepotId(i) {
          ids := ids + [i];
        }
      }
    }
  }
}
