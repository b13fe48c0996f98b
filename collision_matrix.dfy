/** Which collision groups interact (Core/World/CollisionMatrix.h).

    The C++ class keeps one static nested map; here it is one `CollisionMatrix`
    object whose `matrix` field the methods reassign. Reading the JSON file is not
    modelled: the loader takes the already parsed list of (group name, names it
    collides with) pairs and runs the same loop of `Set` calls. */
module Collisions {
  import opened Wrappers
  import opened Shapes

  type Matrix = map<CollisionGroup, map<CollisionGroup, bool>>

  /** The entry for (a, b): false when either lookup misses. */
  function Lookup(m: Matrix, a: CollisionGroup, b: CollisionGroup): bool {
    if a !in m then false
    else if b !in m[a] then false
    else m[a][b]
  }

  /** `matrix[a][b] = value`: the outer `operator[]` creates an empty row when a has
      none yet. */
  function Put(m: Matrix, a: CollisionGroup, b: CollisionGroup, value: bool): (r: Matrix)
    ensures Lookup(r, a, b) == value
    ensures forall x: CollisionGroup, y: CollisionGroup :: (x, y) != (a, b) ==> Lookup(r, x, y) == Lookup(m, x, y)
  {
    var row := if a in m then m[a] else map[];
    m[a := row[b := value]]
  }

  /** Both orders of every pair give the same answer. */
  predicate Symmetric(m: Matrix) {
    forall a: CollisionGroup, b: CollisionGroup :: Lookup(m, a, b) == Lookup(m, b, a)
  }

  /** Every stored entry is true. */
  predicate OnlyTrue(m: Matrix) {
    forall a: CollisionGroup, b: CollisionGroup :: a in m && b in m[a] ==> m[a][b]
  }

  /** `Set` writes both orders, so a symmetric matrix stays symmetric. */
  lemma PutBothKeepsSymmetric(m: Matrix, a: CollisionGroup, b: CollisionGroup, value: bool)
    requires Symmetric(m)
    ensures Symmetric(Put(Put(m, a, b, value), b, a, value))
  {
    var r := Put(Put(m, a, b, value), b, a, value);
    forall x: CollisionGroup, y: CollisionGroup
      ensures Lookup(r, x, y) == Lookup(r, y, x)
    {
      assert Lookup(m, x, y) == Lookup(m, y, x);
    }
  }

  /** Writing true keeps every stored entry true. */
  lemma PutTrueKeepsOnlyTrue(m: Matrix, a: CollisionGroup, b: CollisionGroup)
    requires OnlyTrue(m)
    ensures OnlyTrue(Put(m, a, b, true))
  {
    var r := Put(m, a, b, true);
    forall x: CollisionGroup, y: CollisionGroup | x in r && y in r[x]
      ensures r[x][y]
    {
      if x != a {
        assert r[x] == m[x];
      } else if y != b {
        assert a in m && r[x][y] == m[a][y];
      }
    }
  }

  /** In a matrix without a false entry, an entry reads true exactly when it is
      stored. */
  lemma OnlyTrueLookup(m: Matrix, a: CollisionGroup, b: CollisionGroup)
    requires OnlyTrue(m)
    ensures Lookup(m, a, b) <==> a in m && b in m[a]
  {
  }

  /** The names the configuration file may use. */
  function FromString(name: string): (r: Result<CollisionGroup>)
    ensures r.Ok? <==> name in {"DefaultCollidable", "DefaultNonCollidable", "Player", "Projectile"}
    ensures name == "DefaultCollidable" ==> r == Ok(DefaultCollidable)
    ensures name == "DefaultNonCollidable" ==> r == Ok(DefaultNonCollidable)
    ensures name == "Player" ==> r == Ok(PlayerGroup)
    ensures name == "Projectile" ==> r == Ok(Projectile)
    ensures r.Err? ==> r.error == "Unknown CollisionGroup name: " + name
  {
    if name == "DefaultCollidable" then Ok(DefaultCollidable)
    else if name == "DefaultNonCollidable" then Ok(DefaultNonCollidable)
    else if name == "Player" then Ok(PlayerGroup)
    else if name == "Projectile" then Ok(Projectile)
    else Err("Unknown CollisionGroup name: " + name)
  }

  /** The four named groups are told apart: a group name reads back from its
      value. */
  lemma FromStringInjective(n1: string, n2: string)
    requires FromString(n1).Ok? && FromString(n2).Ok?
    requires FromString(n1) == FromString(n2)
    ensures n1 == n2
  {
  }

  /** One row of the configuration file: a group and the groups it collides with. */
  datatype ConfigRow = ConfigRow(group: string, collidesWith: seq<string>)

  /** Every name in the row names a group. */
  predicate RowNamed(row: ConfigRow) {
    FromString(row.group).Ok? &&
    forall j :: 0 <= j < |row.collidesWith| ==> FromString(row.collidesWith[j]).Ok?
  }

  predicate RowsNamed(rows: seq<ConfigRow>) {
    forall i :: 0 <= i < |rows| ==> RowNamed(rows[i])
  }

  /** The row's group collides with every group the row lists. */
  predicate RowLoaded(m: Matrix, row: ConfigRow)
    requires RowNamed(row)
  {
    forall j :: 0 <= j < |row.collidesWith| ==>
      Lookup(m, FromString(row.group).value, FromString(row.collidesWith[j]).value)
  }

  /** No entry that reads true in m0 reads false in m1. */
  predicate Grows(m0: Matrix, m1: Matrix) {
    forall a: CollisionGroup, b: CollisionGroup :: Lookup(m0, a, b) ==> Lookup(m1, a, b)
  }

  /** What a run of `Set(…, true)` calls keeps: symmetry, the absence of false
      entries, and every true entry. */
  predicate Kept(m0: Matrix, m1: Matrix) {
    (Symmetric(m0) ==> Symmetric(m1)) && (OnlyTrue(m0) ==> OnlyTrue(m1)) && Grows(m0, m1)
  }

  lemma KeptTransitive(m0: Matrix, m1: Matrix, m2: Matrix)
    requires Kept(m0, m1) && Kept(m1, m2)
    ensures Kept(m0, m2)
  {
  }

  lemma GrowsKeepsLoaded(m0: Matrix, m1: Matrix, row: ConfigRow)
    requires RowNamed(row) && RowLoaded(m0, row) && Grows(m0, m1)
    ensures RowLoaded(m1, row)
  {
  }

  class CollisionMatrix {
    var matrix: Matrix

    /** The static map starts empty, so no pair collides until it is `Set`. */
    constructor()
      ensures matrix == map[]
      ensures forall a: CollisionGroup, b: CollisionGroup :: !ShouldCollide(a, b)
      ensures Symmetric(matrix) && OnlyTrue(matrix)
    {
      matrix := map[];
    }

    /** `ShouldCollide`: false when either lookup misses, else the stored entry. In a
        symmetric matrix the order of the pair does not matter, and in one without
        false entries a pair collides exactly when it is stored. */
    predicate ShouldCollide(a: CollisionGroup, b: CollisionGroup)
      reads this
      ensures a !in matrix || b !in matrix[a] ==> !ShouldCollide(a, b)
      ensures Symmetric(matrix) ==> (ShouldCollide(a, b) <==> Lookup(matrix, b, a))
      ensures OnlyTrue(matrix) ==> (ShouldCollide(a, b) <==> a in matrix && b in matrix[a])
    {
      Lookup(matrix, a, b)
    }

    /** Writes both orders of the pair; every other pair keeps its answer. */
    method Set(a: CollisionGroup, b: CollisionGroup, value: bool)
      modifies this
      ensures matrix == Put(Put(old(matrix), a, b, value), b, a, value)
      ensures ShouldCollide(a, b) == value && ShouldCollide(b, a) == value
      ensures forall x: CollisionGroup, y: CollisionGroup :: (x, y) != (a, b) && (x, y) != (b, a) ==>
        ShouldCollide(x, y) == Lookup(old(matrix), x, y)
      ensures old(Symmetric(matrix)) ==> Symmetric(matrix)
      ensures old(OnlyTrue(matrix)) && value ==> OnlyTrue(matrix)
      ensures value ==> Kept(old(matrix), matrix)
    {
      var m0 := matrix;
      matrix := Put(matrix, a, b, value);
      matrix := Put(matrix, b, a, value);
      if Symmetric(m0) {
        PutBothKeepsSymmetric(m0, a, b, value);
      }
      if OnlyTrue(m0) && value {
        PutTrueKeepsOnlyTrue(m0, a, b);
        PutTrueKeepsOnlyTrue(Put(m0, a, b, true), b, a);
      }
    }

    /** The loop of `LoadFromFile`: for each row, `Set(group, other, true)` for every
        listed other group. An unknown name throws at the point it is met, after the
        earlier rows' entries were set. Entries are only ever set to true, and on
        success every listed pair collides both ways. */
    method Load(rows: seq<ConfigRow>) returns (r: Result<()>)
      modifies this
      ensures Kept(old(matrix), matrix)
      ensures r.Ok? <==> RowsNamed(rows)
      ensures r.Ok? ==> forall i :: 0 <= i < |rows| ==> RowLoaded(matrix, rows[i])
    {
      var i := 0;
      while i < |rows|
        invariant 0 <= i <= |rows|
        invariant Kept(old(matrix), matrix)
        invariant RowsNamed(rows[..i])
        invariant forall i' :: 0 <= i' < i ==> RowLoaded(matrix, rows[i'])
      {
        ghost var before := matrix;
        var loaded := LoadRow(rows[i]);
        KeptTransitive(old(matrix), before, matrix);
        if loaded.Err? {
          return loaded;
        }
        forall i' | 0 <= i' < i
          ensures RowLoaded(matrix, rows[i'])
        {
          assert rows[i'] == rows[..i][i'];
          GrowsKeepsLoaded(before, matrix, rows[i']);
        }
        assert rows[..i + 1] == rows[..i] + [rows[i]];
        i := i + 1;
      }
      assert rows[..i] == rows;
      return Ok(());
    }

    /** One row of the loader; it throws at the first unknown name. */
    method LoadRow(row: ConfigRow) returns (r: Result<()>)
      modifies this
      ensures Kept(old(matrix), matrix)
      ensures r.Ok? <==> RowNamed(row)
      ensures r.Ok? ==> RowLoaded(matrix, row)
    {
      var g1 := FromString(row.group);
      if g1.Err? {
        return Err(g1.error);
      }
      var others := row.collidesWith;
      var j := 0;
      while j < |others|
        invariant 0 <= j <= |others|
        invariant Kept(old(matrix), matrix)
        invariant forall j' :: 0 <= j' < j ==> FromString(others[j']).Ok?
        invariant forall j' :: 0 <= j' < j ==> ShouldCollide(g1.value, FromString(others[j']).value)
      {
        var g2 := FromString(others[j]);
        if g2.Err? {
          return Err(g2.error);
        }
        ghost var before := matrix;
        Set(g1.value, g2.value, true);
        KeptTransitive(old(matrix), before, matrix);
        j := j + 1;
      }
      return Ok(());
    }
  }
}
