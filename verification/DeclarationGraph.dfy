/**
 A renderer's capture table: the families reachable from one, and for each of their types
 the parameters it captures, found by iterating to a fixed point in whatever order the
 table is walked.
 */
module DeclarationGraph {
  import opened DeclarationModel
  import opened DeclarationCaptures
  import opened DeclarationChains

  // A set of family names that holds what its members import.
  ghost predicate HoldsImports(w: World, families: set<string>) {
    forall g <- families :: Imports(w, g) <= families
  }

  class Graph {
    const world: World
    var visited: set<string>
    var captures: Captures

    constructor (world: World)
      ensures this.world == world && visited == {} && captures == map[]
    {
      this.world, visited, captures := world, {}, map[];
    }

    // Every type of a visited family is listed, with nothing captured yet.
    ghost predicate Listed()
      reads this
    {
      && visited <= world.Keys
      && (forall k :: k in captures <==> k.0 in visited && k.1 in Types(world, k.0))
      && forall k :: k in captures ==> captures[k] == {}
    }

    method Collect(f: string)
      requires Listed()
      modifies this
      ensures Listed() && old(visited) <= visited && (f in world ==> f in visited)
      ensures forall g :: g in visited && g !in old(visited) ==> Imports(world, g) * world.Keys <= visited
      ensures forall s :: HoldsImports(world, s) && f in s && old(visited) <= s ==> visited <= s
      decreases world.Keys - visited
    {
      if f !in world || f in visited { return; }
      visited := visited + {f};
      captures := captures + map t | t in Types(world, f) :: (f, t) := {};
      var left := Imports(world, f);
      while left != {}
        invariant Listed() && old(visited) + {f} <= visited && left <= Imports(world, f)
        invariant forall g :: g in visited && g !in old(visited) && g != f ==> Imports(world, g) * world.Keys <= visited
        invariant (Imports(world, f) - left) * world.Keys <= visited
        invariant forall s :: HoldsImports(world, s) && f in s && old(visited) <= s ==> visited <= s
      {
        var other :| other in left;
        left := left - {other};
        Collect(other);
      }
    }

    /** Visits the families the root reaches by imports and no others, and ends in the least
        solution of the capture equations over every type of every one of them. */
    method ComputeCaptures(root: string)
      requires visited == {} && captures == map[]
      modifies this
      ensures root in world ==> root in visited
      ensures forall g :: g in visited ==> Imports(world, g) * world.Keys <= visited
      ensures forall s :: HoldsImports(world, s) && root in s ==> visited <= s
      ensures forall k :: k in captures <==> k.0 in visited && k.1 in Types(world, k.0)
      ensures Complete(world, captures) && Solves(world, captures) && Least(world, captures)
      ensures forall k :: k in captures ==> captures[k] == TypeCaptures(world, captures, k)
      ensures forall k, name :: k in captures ==> (name in captures[k] <==> LedTo(world, k, name))
    {
      Collect(root);
      Solve();
      forall k, name | k in captures ensures name in captures[k] <==> LedTo(world, k, name) {
        CapturesAreLedTo(world, captures, k, name);
      }
    }

    // Iterates a table with nothing captured yet to a fixed point.
    method Solve()
      requires forall k :: k in captures ==> captures[k] == {}
      modifies this`captures
      ensures captures.Keys == old(captures).Keys && Solves(world, captures) && Least(world, captures)
      ensures forall k :: k in captures ==> captures[k] == TypeCaptures(world, captures, k)
    {
      var changed := true;
      while changed
        invariant captures.Keys == old(captures).Keys
        invariant Least(world, captures) && Supported(world, captures) && (!changed ==> Solves(world, captures))
        decreases Room(world, captures), changed
      {
        changed := Pass();
      }
    }

    // One walk of the table, in any order; later entries see what earlier ones gained.
    method Pass() returns (changed: bool)
      requires Least(world, captures) && Supported(world, captures)
      modifies this`captures
      ensures captures.Keys == old(captures).Keys && Least(world, captures) && Supported(world, captures)
      ensures if changed then Room(world, captures) < Room(world, old(captures))
              else captures == old(captures) && Solves(world, captures)
    {
      changed := false;
      var left := captures.Keys;
      while left != {}
        invariant captures.Keys == old(captures).Keys && left <= captures.Keys
        invariant Least(world, captures) && Supported(world, captures)
        invariant if changed then Room(world, captures) < Room(world, old(captures))
                  else captures == old(captures) && forall k :: k in captures && k !in left ==>
                    TypeCaptures(world, captures, k) <= captures[k]
      {
        var key :| key in left;
        left := left - {key};
        var more := Improve(key);
        changed := changed || more;
      }
    }

    method Improve(key: Key) returns (changed: bool)
      requires key in captures && Least(world, captures) && Supported(world, captures)
      modifies this`captures
      ensures captures.Keys == old(captures).Keys && Least(world, captures) && Supported(world, captures)
      ensures if changed then Room(world, captures) < Room(world, old(captures))
              else captures == old(captures) && TypeCaptures(world, captures, key) <= captures[key]
    {
      var found := TypeCaptures(world, captures, key);
      changed := !(found <= captures[key]);
      if changed {
        GrowingStaysLeast(world, captures, key);
        RoomShrinks(world, captures, key);
        captures := captures[key := captures[key] + found];
      }
    }
  }
}
