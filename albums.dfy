/**
 * The album service: an in-memory table of record albums with a listing, a
 * lookup by id and an insertion that checks the fields and refuses an id
 * already present.
 */
module Albums {
  import opened Wrappers

  /** One record album; the price is only ever compared with 0. */
  datatype Album = Album(id: string, title: string, artist: string, price: real)

  const StatusOK: nat := 200
  const StatusCreated: nat := 201
  const StatusBadRequest: nat := 400
  const StatusNotFound: nat := 404
  const StatusConflict: nat := 409

  /** The three albums the table starts with. */
  const Seed: seq<Album> := [
    Album("1", "Blue Train", "John Coltrane", 56.99),
    Album("2", "Jeru", "Gerry Mulligan", 17.99),
    Album("3", "Sarah Vaughan and Clifford Brown", "Sarah Vaughan", 39.99)
  ]

  /** No two albums of the table share an id. */
  predicate UniqueIds(albums: seq<Album>)
  {
    forall i, j :: 0 <= i < j < |albums| ==> albums[i].id != albums[j].id
  }

  /** Some album of the table has the id. */
  predicate IdTaken(albums: seq<Album>, id: string)
  {
    exists i :: 0 <= i < |albums| && albums[i].id == id
  }

  /** The field checks of `postAlbums`: id, title and artist non-empty, price above 0. */
  predicate ValidFields(a: Album)
  {
    a.id != "" && a.title != "" && a.artist != "" && a.price > 0.0
  }

  /** The seed table has pairwise different ids and only albums that pass the field checks. */
  lemma SeedValid()
    ensures UniqueIds(Seed)
    ensures forall i :: 0 <= i < |Seed| ==> ValidFields(Seed[i])
  {
  }

  // ---------------------------------------------------------------------------
  // getAlbumByID
  // ---------------------------------------------------------------------------

  /** The first album with the id, scanning from the front. */
  function FindById(albums: seq<Album>, id: string): (r: Option<Album>)
    ensures r.Some? ==> r.value.id == id && r.value in albums
  {
    if albums == [] then None
    else if albums[0].id == id then Some(albums[0])
    else FindById(albums[1..], id)
  }

  /** The lookup finds the album at `i` when it is the first with the id. */
  lemma {:induction false} FindByIdFirst(albums: seq<Album>, id: string, i: nat)
    requires i < |albums| && albums[i].id == id
    requires forall j :: 0 <= j < i ==> albums[j].id != id
    ensures FindById(albums, id) == Some(albums[i])
  {
    if i > 0 {
      FindByIdFirst(albums[1..], id, i - 1);
    }
  }

  /** The lookup fails exactly when no album has the id. */
  lemma {:induction false} FindByIdNone(albums: seq<Album>, id: string)
    ensures FindById(albums, id).None? <==> !IdTaken(albums, id)
  {
    if albums != [] && albums[0].id != id {
      FindByIdNone(albums[1..], id);
      if IdTaken(albums, id) {
        var i :| 0 <= i < |albums| && albums[i].id == id;
        assert albums[1..][i - 1].id == id;
      }
      if IdTaken(albums[1..], id) {
        var i :| 0 <= i < |albums[1..]| && albums[1..][i].id == id;
        assert albums[i + 1].id == id;
      }
    } else if albums != [] {
      assert albums[0].id == id;
    }
  }

  /** A found album carries the id and is the first of the table to do so. */
  lemma {:induction false} FindByIdFound(albums: seq<Album>, id: string)
    requires FindById(albums, id).Some?
    ensures exists i ::
      0 <= i < |albums| && albums[i] == FindById(albums, id).value
      && FindById(albums, id).value.id == id && forall j :: 0 <= j < i ==> albums[j].id != id
  {
    if albums[0].id != id {
      FindByIdFound(albums[1..], id);
      var i :| 0 <= i < |albums[1..]| && albums[1..][i] == FindById(albums[1..], id).value
        && FindById(albums[1..], id).value.id == id && forall j :: 0 <= j < i ==> albums[1..][j].id != id;
      assert forall j :: 1 <= j < i + 1 ==> albums[j] == albums[1..][j - 1];
      assert albums[i + 1] == FindById(albums, id).value;
    } else {
      assert albums[0] == FindById(albums, id).value;
    }
  }

  /** In a table with unique ids, looking up the id of any album finds that album. */
  lemma FindEachAlbum(albums: seq<Album>, i: nat)
    requires UniqueIds(albums) && i < |albums|
    ensures FindById(albums, albums[i].id) == Some(albums[i])
  {
    FindByIdFirst(albums, albums[i].id, i);
  }

  // ---------------------------------------------------------------------------
  // postAlbums
  // ---------------------------------------------------------------------------

  /** What `postAlbums` answers. */
  datatype PostOutcome = Created(album: Album) | InvalidJson | InvalidFields | DuplicateId
  {
    function Status(): nat
    {
      match this
      case Created(_) => StatusCreated
      case InvalidJson => StatusBadRequest
      case InvalidFields => StatusBadRequest
      case DuplicateId => StatusConflict
    }

    function Message(): string
    {
      match this
      case Created(_) => ""
      case InvalidJson => "invalid JSON body"
      case InvalidFields => "missing/invalid fields: id, title, artist must be non-empty; price must be > 0"
      case DuplicateId => "album with that id already exists"
    }
  }

  /**
   * What posting `bound` (the album `BindJSON` produced, or `None` when the
   * body was not valid JSON for an album) does to the table: the answer and
   * the new table. It answers 201 and appends exactly when the album passes
   * the field checks and its id is new; otherwise the table is unchanged,
   * with 400 for bad JSON or bad fields and 409 for a taken id.
   */
  function Post(albums: seq<Album>, bound: Option<Album>): (r: (PostOutcome, seq<Album>))
    ensures r.0.Created? <==> bound.Some? && ValidFields(bound.value) && !IdTaken(albums, bound.value.id)
    ensures r.0.Created? ==>
      r.0.album == bound.value && r.1 == albums + [bound.value]
      && |r.1| == |albums| + 1 && r.1[..|albums|] == albums
    ensures !r.0.Created? ==> r.1 == albums && r.0.Status() in {StatusBadRequest, StatusConflict}
    ensures r.0 == DuplicateId <==> bound.Some? && ValidFields(bound.value) && IdTaken(albums, bound.value.id)
  {
    match bound
    case None => (InvalidJson, albums)
    case Some(a) =>
      if !ValidFields(a) then (InvalidFields, albums)
      else if IdTaken(albums, a.id) then (DuplicateId, albums)
      else
        assert (albums + [a])[..|albums|] == albums;
        (Created(a), albums + [a])
  }

  /** A post keeps the ids unique. */
  lemma PostKeepsUniqueIds(albums: seq<Album>, bound: Option<Album>)
    requires UniqueIds(albums)
    ensures UniqueIds(Post(albums, bound).1)
  {
    if bound.Some? && ValidFields(bound.value) && !IdTaken(albums, bound.value.id) {
      var r := albums + [bound.value];
      forall i, j | 0 <= i < j < |r|
        ensures r[i].id != r[j].id
      {
        if j == |albums| {
          assert albums[i].id == r[i].id;
        }
      }
    }
  }

  /** After a successful post of `a`, looking up its id gives `a`, and the other lookups are unchanged. */
  lemma PostThenFind(albums: seq<Album>, a: Album, id: string)
    requires Post(albums, Some(a)).0.Created?
    ensures FindById(Post(albums, Some(a)).1, a.id) == Some(a)
    ensures id != a.id ==> FindById(Post(albums, Some(a)).1, id) == FindById(albums, id)
  {
    var after := albums + [a];
    assert forall j :: 0 <= j < |albums| ==> albums[j].id != a.id;
    FindByIdFirst(after, a.id, |albums|);
    if id != a.id {
      FindByIdAppend(albums, a, id);
    }
  }

  /** Appending an album with another id does not change a lookup. */
  lemma {:induction false} FindByIdAppend(albums: seq<Album>, a: Album, id: string)
    requires a.id != id
    ensures FindById(albums + [a], id) == FindById(albums, id)
  {
    if albums == [] {
      assert [a][1..] == [];
    } else {
      assert (albums + [a])[1..] == albums[1..] + [a];
      if albums[0].id != id {
        FindByIdAppend(albums[1..], a, id);
      }
    }
  }

  // ---------------------------------------------------------------------------
  // The table
  // ---------------------------------------------------------------------------

  /** The global `albums` slice and its three handlers. */
  class AlbumStore {
    var albums: seq<Album>

    /** The table's invariant: ids pairwise different. */
    predicate Valid()
      reads this
    {
      UniqueIds(albums)
    }

    /** The table as seeded. */
    constructor ()
      ensures albums == Seed && Valid()
    {
      albums := Seed;
      SeedValid();
    }

    /** `getAlbums`: the whole table, with 200. */
    method GetAlbums() returns (status: nat, r: seq<Album>)
      ensures status == StatusOK && r == albums
    {
      status := StatusOK;
      r := albums;
    }

    /** `getAlbumByID`: a scan for the first album with the id, 200 with it or 404. */
    method GetAlbumByID(id: string) returns (status: nat, r: Option<Album>)
      ensures r == FindById(albums, id)
      ensures r.None? <==> forall i :: 0 <= i < |albums| ==> albums[i].id != id
      ensures status == if r.Some? then StatusOK else StatusNotFound
    {
      for i := 0 to |albums|
        invariant forall j :: 0 <= j < i ==> albums[j].id != id
      {
        if albums[i].id == id {
          FindByIdFirst(albums, id, i);
          return StatusOK, Some(albums[i]);
        }
      }
      FindByIdNone(albums, id);
      return StatusNotFound, None;
    }

    /**
     * `postAlbums`: the field checks, a scan refusing a taken id, then the
     * append. `bound` is what `BindJSON` produced, `None` for a body that is
     * not an album in JSON.
     */
    method PostAlbum(bound: Option<Album>) returns (out: PostOutcome)
      modifies this
      ensures (out, albums) == Post(old(albums), bound)
      ensures old(Valid()) ==> Valid()
    {
      if bound.None? {
        return InvalidJson;
      }
      var a := bound.value;
      if a.id == "" || a.title == "" || a.artist == "" || a.price <= 0.0 {
        return InvalidFields;
      }
      for i := 0 to |albums|
        invariant forall j :: 0 <= j < i ==> albums[j].id != a.id
      {
        if albums[i].id == a.id {
          return DuplicateId;
        }
      }
      if Valid() {
        PostKeepsUniqueIds(albums, bound);
      }
      albums := albums + [a];
      out := Created(a);
    }
  }

  /** The seeded lookups: id "2" finds the Jeru album, id "999" finds nothing. */
  lemma SeedLookups()
    ensures FindById(Seed, "2") == Some(Seed[1]) && Seed[1].id == "2"
    ensures FindById(Seed, "999") == None
  {
    FindByIdFirst(Seed, "2", 1);
    FindByIdNone(Seed, "999");
  }

  /** Posting a new album "4" to the seed gives 201 and four albums; posting id "1" again gives 409. */
  lemma SeedPosts()
    ensures var a := Album("4", "The Modern Sound of Betty Carter", "Betty Carter", 49.99);
      Post(Seed, Some(a)).0 == Created(a) && |Post(Seed, Some(a)).1| == 4
    ensures Post(Seed, Some(Album("1", "Dup", "X", 10.0))).0.Status() == StatusConflict
  {
    var a := Album("4", "The Modern Sound of Betty Carter", "Betty Carter", 49.99);
    FindByIdNone(Seed, "4");
    assert Seed[0].id == "1";
  }
}
