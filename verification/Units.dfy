/** The unit hierarchy of a venture: units form a tree by name prefix, kept in superunit links and
    subunit lists that creating and erasing units relink in place. */
module Units {
  import opened Lists

  const MAX_UNIT_NBR := 10

  /** Unit names by unit number; the root unit, number 0, has the empty name. */
  type UnitNames = map<int, string>

  ghost predicate WellNamed(names: UnitNames) {
    && 0 in names && names[0] == ""
    && (forall a, b :: a in names && b in names && names[a] == names[b] ==> a == b)
  }

  /** Unit a lies within unit r: r's name is a prefix of a's. Never true of units that do not exist. */
  predicate SubunitOf(names: UnitNames, a: int, r: int) {
    a in names && r in names && names[r] <= names[a]
  }

  /** w is the unit with the longest name that is a proper prefix of u's. */
  ghost predicate IsSuperunit(names: UnitNames, u: int, w: int) {
    && u in names && w in names && names[w] < names[u]
    && (forall x :: x in names && names[x] < names[u] ==> |names[x]| <= |names[w]|)
  }

  predicate Unused(names: UnitNames, name: string) {
    forall x :: x in names ==> names[x] != name
  }

  class Unit {
    const nbr: int
    const name: string
    var superunit: Unit?
    var subunits: seq<Unit>

    constructor (nbr: int, name: string, superunit: Unit?, subunits: seq<Unit>)
      ensures this.nbr == nbr && this.name == name && this.superunit == superunit && this.subunits == subunits
    {
      this.nbr, this.name, this.superunit, this.subunits := nbr, name, superunit, subunits;
    }
  }

  class Venture {
    const units: array<Unit?>
    ghost var Names: UnitNames
    ghost var Repr: set<Unit>

    /** The units table holds well-named units, each under its number. */
    ghost predicate Table()
      reads this, units
    {
      && units.Length == MAX_UNIT_NBR + 1
      && (forall i :: 0 <= i < units.Length && units[i] != null ==> units[i] in Repr && units[i].nbr == i)
      && (forall u :: u in Repr ==> 0 <= u.nbr < units.Length && units[u.nbr] == u)
      && (forall u :: u in Repr ==> u.nbr in Names && Names[u.nbr] == u.name)
      && (forall i :: i in Names ==> 0 <= i < units.Length && units[i] != null)
      && WellNamed(Names)
    }

    /** Each unit but the root has as superunit the existing unit with the longest proper prefix of
        its name. */
    ghost predicate SuperunitsExact()
      reads this, Repr
    {
      forall u {:trigger u.superunit} :: u in Repr ==>
        if u.nbr == 0 then u.superunit == null
        else u.superunit != null && u.superunit in Repr && IsSuperunit(Names, u.nbr, u.superunit.nbr)
    }

    /** The subunit lists are the exact inverse of the superunit links. */
    ghost predicate SubunitsExact()
      reads `Repr, Repr
    {
      && (forall w :: w in Repr ==> NoDup(w.subunits))
      && (forall w, u :: w in Repr && u in w.subunits ==> u in Repr && u.superunit == w)
      && (forall w, u :: w in Repr && u in Repr && u.superunit == w ==> u in w.subunits)
    }

    ghost predicate Valid()
      reads this, units, Repr
    {
      Table() && SuperunitsExact() && SubunitsExact()
    }

    /** The way from a unit to the root by superunit links: it ends there, and passes through exactly the units that
        the unit lies within. */
    ghost function PathToRoot(u: Unit): (p: seq<Unit>)
      requires Valid() && u in Repr
      reads this, units, Repr
      ensures p != [] && p[0] == u && p[|p| - 1] == units[0]
      ensures forall w :: w in p ==> w in Repr && SubunitOf(Names, u.nbr, w.nbr)
      ensures forall w :: w in Repr && SubunitOf(Names, u.nbr, w.nbr) ==> w in p
      ensures forall i :: 0 < i < |p| ==> p[i - 1].superunit == p[i]
      decreases |u.name|
    {
      assert Names[u.nbr] == u.name;
      if u.nbr == 0 then [u]
      else
        var w := u.superunit;
        assert IsSuperunit(Names, u.nbr, w.nbr) && Names[w.nbr] == w.name;
        [u] + PathToRoot(w)
    }

    /** A venture with its root unit only. */
    constructor ()
      ensures Valid() && fresh(units) && fresh(Repr)
      ensures Names == map[0 := ""]
    {
      var root := new Unit(0, "", null, []);
      units := new Unit?[MAX_UNIT_NBR + 1](i => null);
      Names, Repr := map[0 := ""], {root};
      new;
      units[0] := root;
    }

    /** Whether the argument unit lies within the reference unit, found by climbing superunit links. */
    method IsSubunitOf(argUnitNbr: int, refUnitNbr: int) returns (r: bool)
      requires Valid()
      requires 0 <= argUnitNbr < units.Length
      ensures r <==> SubunitOf(Names, argUnitNbr, refUnitNbr)
      ensures r <==> argUnitNbr in Names && refUnitNbr in Names && Names[refUnitNbr] <= Names[argUnitNbr]
    {
      var argUnit := units[argUnitNbr];
      while argUnit != null
        invariant argUnit != null ==> argUnit in Repr
        invariant SubunitOf(Names, argUnitNbr, refUnitNbr)
             <==> argUnit != null && SubunitOf(Names, argUnit.nbr, refUnitNbr)
        decreases if argUnit == null then 0 else |argUnit.name| + 1
      {
        if argUnit.nbr == refUnitNbr { return true; }
        assert Names[argUnit.nbr] == argUnit.name;
        argUnit := argUnit.superunit;
      }
      return false;
    }

    /** Adds a unit unless its name is taken. Its superunit is the unit with the longest prefix of the
        name; units whose names it prefixes are its candidate subunits. */
    method CreateUnit(nbr: int, name: string) returns (created: bool)
      requires Valid()
      requires 0 < nbr <= MAX_UNIT_NBR && units[nbr] == null && name != ""
      modifies this, units, Repr
      ensures Valid() && fresh(Repr - old(Repr))
      ensures created <==> Unused(old(Names), name)
      ensures Names == if created then old(Names)[nbr := name] else old(Names)
    {
      var superunit, subunits := FindSuperunit(name);
      if |superunit.name| == |name| {
        assert Names[superunit.nbr] == name;
        return false;
      }
      forall x | x in Names ensures Names[x] != name { assert units[x] in Repr && units[x].name == Names[x]; }
      InitializeUnit(nbr, name, superunit, subunits);
      return true;
    }

    /** The unit with the longest name that prefixes the new name, and all units the new name prefixes. */
    method FindSuperunit(name: string) returns (superunit: Unit, subunits: seq<Unit>)
      requires Table() && name != ""
      ensures superunit in Repr && superunit.name <= name
      ensures forall u :: u in Repr && u.name <= name ==> |u.name| <= |superunit.name|
      ensures NoDup(subunits) && forall u :: u in subunits <==> u in Repr && name < u.name
    {
      subunits := [];
      var bestLength := 0;
      superunit := units[0];
      assert Names[0] == superunit.name;
      for i := 0 to units.Length
        invariant superunit in Repr && superunit.name <= name && |superunit.name| == bestLength
        invariant forall u :: u in Repr && u.nbr < i && u.name <= name ==> |u.name| <= bestLength
        invariant NoDup(subunits)
        invariant forall u :: u in subunits <==> u in Repr && u.nbr < i && name < u.name
      {
        var unit := units[i];
        if unit != null {
          var isPrefix, isExtension := ComparePrefix(unit.name, name);
          if isPrefix {
            if |unit.name| > bestLength {
              bestLength := |unit.name|;
              superunit := unit;
            }
          } else if isExtension {
            subunits := subunits + [unit];
          }
        }
      }
    }

    /** The scan of two names, character by character, that tells superunits from subunits. */
    method ComparePrefix(unitName: string, name: string) returns (isPrefix: bool, isExtension: bool)
      ensures isPrefix <==> unitName <= name
      ensures isExtension <==> name < unitName
    {
      var j := 0;
      while true
        invariant j <= |unitName| && j <= |name| && unitName[..j] == name[..j]
        decreases |name| - j
      {
        if j == |unitName| { return true, false; }
        if j == |name| { return false, true; }
        if unitName[j] != name[j] { return false, false; }
        j := j + 1;
      }
    }

    /** Links a new unit below its superunit, and below itself those candidates that were direct
        subunits of that superunit. */
    method InitializeUnit(nbr: int, name: string, superunit: Unit, candidates: seq<Unit>)
      requires Valid()
      requires 0 < nbr <= MAX_UNIT_NBR && units[nbr] == null
      requires Unused(Names, name) && superunit in Repr && superunit.name < name
      requires forall u :: u in Repr && u.name <= name ==> |u.name| <= |superunit.name|
      requires NoDup(candidates) && forall u :: u in candidates <==> u in Repr && name < u.name
      modifies this, units, Repr
      ensures Valid() && fresh(Repr - old(Repr))
      ensures Names == old(Names)[nbr := name]
    {
      hide SubunitsExact, IsSuperunit, NoDup;
      var unit := LinkExactly(nbr, name, superunit, candidates);
      NewUnitSuperunits(Names, nbr, name, superunit.nbr);
      assert WellNamed(Names[nbr := name]);
      hide WellNamed, Unused;
      Names := Names[nbr := name];
      assert SuperunitsExact() by {
        forall u | u in Repr && u.nbr != 0
          ensures u.superunit != null && u.superunit in Repr && IsSuperunit(Names, u.nbr, u.superunit.nbr)
        {
          if u != unit {
            assert u in old(Repr) && old(u.superunit) in old(Repr);
            assert u in candidates <==> name < old(Names)[u.nbr];
          }
        }
      }
    }

    /** Link, and the new unit counted in: the lists stay the inverse of the links. */
    method LinkExactly(nbr: int, name: string, superunit: Unit, candidates: seq<Unit>) returns (unit: Unit)
      requires 0 <= nbr < units.Length && superunit in Repr && superunit !in candidates
      requires NoDup(candidates) && forall u :: u in candidates ==> u in Repr
      requires SubunitsExact()
      modifies units, Repr, `Repr
      ensures SubunitsExact() && Repr == old(Repr) + {unit}
      ensures fresh(unit) && unit.nbr == nbr && unit.name == name && unit.superunit == superunit
      ensures forall i :: 0 <= i < units.Length ==> units[i] == if i == nbr then unit else old(units[i])
      ensures forall u :: u in old(Repr) ==>
        u.superunit == if u in candidates && old(u.superunit) == superunit then unit else old(u.superunit)
    {
      unit := Link(nbr, name, superunit, candidates);
      Repr := Repr + {unit};
      forall w, u | w in Repr && u in w.subunits ensures u in Repr && u.superunit == w {
        if w == unit {
          assert u in candidates;
        } else if u != unit {
          assert w in old(Repr) && u in old(w.subunits);
        }
      }
      forall w, u | w in Repr && u in Repr && u.superunit == w ensures u in w.subunits {
        if w != unit && u != unit { assert w in old(Repr) && u in old(Repr) && old(u.superunit) == w; }
      }
    }

    /** The pointer work of InitializeUnit: the new unit takes its place in the table, its superunit's
        list, and the links of the candidates it adopts. */
    method Link(nbr: int, name: string, superunit: Unit, candidates: seq<Unit>) returns (unit: Unit)
      requires 0 <= nbr < units.Length && superunit in Repr && superunit !in candidates
      requires NoDup(candidates) && NoDup(superunit.subunits)
      requires forall u :: u in candidates || u in superunit.subunits ==> u in Repr
      modifies units, Repr
      ensures fresh(unit) && unit.nbr == nbr && unit.name == name && unit.superunit == superunit
      ensures forall i :: 0 <= i < units.Length ==> units[i] == if i == nbr then unit else old(units[i])
      ensures NoDup(unit.subunits) && NoDup(superunit.subunits)
      ensures forall u :: u in unit.subunits <==> u in candidates && old(u.superunit) == superunit
      ensures forall u :: u in superunit.subunits <==>
                          u == unit || (u in old(superunit.subunits) && u !in unit.subunits)
      ensures forall u :: u in Repr ==> u.superunit == if u in unit.subunits then unit else old(u.superunit)
      ensures forall u :: u in Repr && u != superunit ==> u.subunits == old(u.subunits)
    {
      unit := new Unit(nbr, name, superunit, []);
      superunit.subunits := superunit.subunits + [unit];
      var kept := Adopt(unit, superunit, candidates);
      unit.subunits := kept;
      units[nbr] := unit;
    }

    /** The loop of InitializeUnit over the candidates: each direct subunit of superunit moves to unit. */
    method Adopt(unit: Unit, superunit: Unit, candidates: seq<Unit>) returns (kept: seq<Unit>)
      requires NoDup(superunit.subunits) && unit in superunit.subunits && unit !in candidates
      requires NoDup(candidates) && superunit !in candidates && unit != superunit
      modifies superunit`subunits, (set u | u in candidates)`superunit
      ensures NoDup(kept)
      ensures forall u :: u in kept <==> u in candidates && old(u.superunit) == superunit
      ensures forall u :: u in candidates ==> u.superunit == if u in kept then unit else old(u.superunit)
      ensures NoDup(superunit.subunits)
      ensures forall u :: u in superunit.subunits <==> u in old(superunit.subunits) && u !in kept
    {
      kept := [];
      for c := 0 to |candidates|
        invariant NoDup(kept)
        invariant forall u :: u in kept <==> u in candidates[..c] && old(u.superunit) == superunit
        invariant forall u :: u in candidates ==> u.superunit == if u in kept then unit else old(u.superunit)
        invariant NoDup(superunit.subunits)
        invariant forall u :: u in superunit.subunits <==> u in old(superunit.subunits) && u !in kept
      {
        var subunit := candidates[c];
        assert subunit !in candidates[..c];
        if subunit.superunit == superunit {
          RemoveFirstNoDup(superunit.subunits, subunit);
          superunit.subunits := RemoveFirst(superunit.subunits, subunit);
          subunit.superunit := unit;
          kept := kept + [subunit];
        }
      }
    }

    /** Erases a unit other than the root: its subunits pass to its superunit. */
    method EraseUnit(unit: Unit)
      requires Valid()
      requires unit in Repr && unit.nbr != 0
      modifies this, units, Repr
      ensures Valid() && Repr == old(Repr) - {unit}
      ensures Names == old(Names) - {unit.nbr}
    {
      hide SubunitsExact, IsSuperunit;
      ghost var s := unit.superunit;
      ErasedUnitSuperunits(Names, unit.nbr, s.nbr);
      UnlinkExactly(unit);
      Names := Names - {unit.nbr};
      assert SuperunitsExact() by {
        forall u | u in Repr && u.nbr != 0
          ensures u.superunit != null && u.superunit in Repr && IsSuperunit(Names, u.nbr, u.superunit.nbr)
        {
          assert u in old(Repr) && old(u.superunit) in old(Repr);
        }
      }
    }

    /** Unlink, and the erased unit no longer counted: the lists stay the inverse of the links. */
    method UnlinkExactly(unit: Unit)
      requires 0 <= unit.nbr < units.Length && unit in Repr
      requires unit.superunit != null && unit.superunit in Repr && unit.superunit != unit
      requires SubunitsExact()
      modifies units, Repr, `Repr
      ensures SubunitsExact() && Repr == old(Repr) - {unit}
      ensures forall i :: 0 <= i < units.Length ==> units[i] == if i == unit.nbr then null else old(units[i])
      ensures forall u :: u in Repr ==>
        u.superunit == if old(u.superunit) == unit then old(unit.superunit) else old(u.superunit)
    {
      ghost var s := unit.superunit;
      Unlink(unit);
      Repr := Repr - {unit};
      forall w, u | w in Repr && u in w.subunits ensures u in Repr && u.superunit == w {
        if w != s { assert u in old(w.subunits); }
      }
      forall w, u | w in Repr && u in Repr && u.superunit == w ensures u in w.subunits {
        assert u in old(Repr);
      }
    }

    /** The pointer work of eraseUnit. */
    method Unlink(unit: Unit)
      requires 0 <= unit.nbr < units.Length && unit in Repr
      requires unit.superunit != null && unit.superunit in Repr && unit.superunit != unit
      requires SubunitsExact()
      modifies units, Repr
      ensures forall i :: 0 <= i < units.Length ==> units[i] == if i == unit.nbr then null else old(units[i])
      ensures var s := old(unit.superunit);
        && NoDup(s.subunits)
        && (forall u :: u in s.subunits <==> (u in old(s.subunits) && u != unit) || u in old(unit.subunits))
        && (forall u :: u in Repr && u != s && u != unit ==> u.subunits == old(u.subunits))
        && (forall u :: u in Repr && u != unit ==>
              u.superunit == if u in old(unit.subunits) then s else old(u.superunit))
    {
      var superunit := unit.superunit;
      forall u | u in unit.subunits ensures u !in superunit.subunits {
        assert u.superunit == unit;
      }
      Reattach(unit, superunit);
      RemoveFirstNoDup(superunit.subunits, unit);
      superunit.subunits := RemoveFirst(superunit.subunits, unit);
      unit.superunit := null;
      units[unit.nbr] := null;
    }

    /** The loop of eraseUnit over the erased unit's subunits. */
    method Reattach(unit: Unit, superunit: Unit)
      requires NoDup(unit.subunits) && NoDup(superunit.subunits) && unit != superunit
      requires forall u :: u in unit.subunits ==> u !in superunit.subunits
      modifies superunit`subunits, unit`subunits, (set u | u in unit.subunits)`superunit
      ensures unit.subunits == []
      ensures superunit.subunits == old(superunit.subunits) + old(unit.subunits)
      ensures forall u :: u in old(unit.subunits) ==> u.superunit == superunit
    {
      ghost var moved := 0;
      while unit.subunits != []
        invariant moved <= |old(unit.subunits)| && unit.subunits == old(unit.subunits)[moved..]
        invariant superunit.subunits == old(superunit.subunits) + old(unit.subunits)[..moved]
        invariant forall u :: u in old(unit.subunits)[..moved] ==> u.superunit == superunit
        decreases |unit.subunits|
      {
        var subunit := unit.subunits[0];
        unit.subunits := unit.subunits[1..];
        superunit.subunits := superunit.subunits + [subunit];
        subunit.superunit := superunit;
        moved := moved + 1;
      }
    }
  }

  /** Superunits once unit e has left: units directly below it go to its superunit. */
  lemma ErasedUnitSuperunits(names: UnitNames, e: int, s: int)
    requires WellNamed(names) && e != 0 && IsSuperunit(names, e, s)
    ensures var less := names - {e};
      && s in less && WellNamed(less)
      && forall u, w :: u in less && IsSuperunit(names, u, w) ==> IsSuperunit(less, u, if w == e then s else w)
  {
    var less := names - {e};
    forall u, w | u in less && IsSuperunit(names, u, w)
      ensures IsSuperunit(less, u, if w == e then s else w)
    {
      if w == e {
        forall x | x in less && less[x] < less[u] ensures |less[x]| <= |less[s]| {
          assert names[x] < names[u] && names[x] != names[e] && |names[x]| <= |names[e]|;
          assert names[x] < names[e];
        }
      }
    }
  }

  /** Superunits once a unit named between s and its extensions has joined: it becomes the superunit of
      those units that its name prefixes and whose superunit was s, and of no others. */
  lemma NewUnitSuperunits(names: UnitNames, nbr: int, name: string, s: int)
    requires WellNamed(names) && nbr !in names && Unused(names, name)
    requires s in names && names[s] < name
    requires forall x :: x in names && names[x] <= name ==> |names[x]| <= |names[s]|
    ensures var grown := names[nbr := name];
      && WellNamed(grown)
      && IsSuperunit(grown, nbr, s)
      && forall u, w :: u in names && IsSuperunit(names, u, w) ==>
           IsSuperunit(grown, u, if name < names[u] && w == s then nbr else w)
  {
    var grown := names[nbr := name];
    forall u, w | u in names && IsSuperunit(names, u, w)
      ensures IsSuperunit(grown, u, if name < names[u] && w == s then nbr else w)
    {
      if name < names[u] {
        assert names[w] <= name || name <= names[w];
        if w == s { assert forall x :: x in names && names[x] < names[u] ==> |names[x]| <= |names[s]|; }
      }
    }
  }
}
