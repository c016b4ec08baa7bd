/** `ProfilesStore`: the profile list kept in one JSON file. Each operation
    loads the list, transforms it and saves the result; the file is modelled
    by the list it holds, and the transformation is what is modelled here. */
module ProfilesStore {
  import opened Wrappers
  import opened Text
  import opened HostProfiles

  /** The store file: absent, or holding a JSON list that may be `null`. */
  datatype StoreFile = Missing | Stored(contents: Option<seq<HostProfile>>)

  /** `LoadAsync()`: a missing file and a `null` list both load as empty. */
  function Load(file: StoreFile): (r: seq<HostProfile>)
    ensures file.Missing? ==> r == []
    ensures file.Stored? && file.contents.None? ==> r == []
    ensures file.Stored? && file.contents.Some? ==> r == file.contents.value
  {
    match file
    case Missing => []
    case Stored(contents) => contents.GetOr([])
  }

  /** The file written by `SaveAsync(profiles)`. */
  function Save(profiles: seq<HostProfile>): (file: StoreFile)
    ensures Load(file) == profiles
  {
    Stored(Some(profiles))
  }

  /** No two profiles share an id. */
  predicate UniqueIds(ps: seq<HostProfile>) {
    forall i, j :: 0 <= i < j < |ps| ==> ps[i].id != ps[j].id
  }

  // ---------------------------------------------------------------------
  // Add
  // ---------------------------------------------------------------------

  /** `AddProfile(profile)`: the profile goes to the end, after every profile
      already stored, which keep their order. No check is made that its id is
      new. */
  function AddProfile(ps: seq<HostProfile>, p: HostProfile): (r: seq<HostProfile>)
    ensures |r| == |ps| + 1
    ensures r[..|ps|] == ps && r[|ps|] == p
  {
    ps + [p]
  }

  /** Adding keeps the ids unique exactly when no stored profile already
      carries the new id. */
  lemma AddKeepsUniqueIds(ps: seq<HostProfile>, p: HostProfile)
    requires UniqueIds(ps)
    ensures UniqueIds(AddProfile(ps, p)) <==> FirstIndexById(ps, p.id).None?
  {
    var r := AddProfile(ps, p);
    if FirstIndexById(ps, p.id).Some? {
      var i := FirstIndexById(ps, p.id).value;
      assert r[i].id == r[|ps|].id;
    }
  }

  // ---------------------------------------------------------------------
  // Delete
  // ---------------------------------------------------------------------

  /** `RemoveAll(p => p.Id == id)`: every profile with that id goes, and
      every other stays. */
  function RemoveAllById(ps: seq<HostProfile>, id: string): (r: seq<HostProfile>)
    ensures |r| <= |ps|
    ensures forall q :: q in r <==> q in ps && q.id != id
  {
    if ps == [] then []
    else
      var rest := RemoveAllById(ps[1..], id);
      assert forall q :: q in ps <==> q == ps[0] || q in ps[1..] by {
        assert ps == [ps[0]] + ps[1..];
      }
      if ps[0].id == id then rest else [ps[0]] + rest
  }

  /** Removal works element by element: the survivors keep their relative
      order. */
  lemma {:induction false} RemoveAllDistributes(a: seq<HostProfile>, b: seq<HostProfile>, id: string)
    ensures RemoveAllById(a + b, id) == RemoveAllById(a, id) + RemoveAllById(b, id)
  {
    if a != [] {
      assert (a + b)[1..] == a[1..] + b;
      RemoveAllDistributes(a[1..], b, id);
    } else {
      assert a + b == b;
    }
  }

  /** A list without the id is left exactly as it was. */
  lemma {:induction false} RemoveAllAbsent(ps: seq<HostProfile>, id: string)
    requires forall j :: 0 <= j < |ps| ==> ps[j].id != id
    ensures RemoveAllById(ps, id) == ps
  {
    if ps != [] {
      RemoveAllAbsent(ps[1..], id);
      assert ps == [ps[0]] + ps[1..];
    }
  }

  /** Removing twice removes nothing more. */
  lemma RemoveAllIdempotent(ps: seq<HostProfile>, id: string)
    ensures RemoveAllById(RemoveAllById(ps, id), id) == RemoveAllById(ps, id)
  {
    var r := RemoveAllById(ps, id);
    forall j | 0 <= j < |r| ensures r[j].id != id {
      assert r[j] in r;
    }
    RemoveAllAbsent(r, id);
  }

  /** `DeleteProfile(profile)`: the list without any profile carrying the
      argument's id, and the key file to delete, which is the argument's own
      identity file whenever it is not blank. */
  function DeleteProfile(ps: seq<HostProfile>, p: HostProfile): (r: (seq<HostProfile>, Option<string>))
    ensures forall q :: q in r.0 <==> q in ps && q.id != p.id
    ensures r.1.Some? <==> !IsNullOrWhiteSpace(p.identityFile)
    ensures r.1.Some? ==> r.1 == p.identityFile
  {
    var key := if !IsNullOrWhiteSpace(p.identityFile) then p.identityFile else None;
    (RemoveAllById(ps, p.id), key)
  }

  /** Deleting a profile just added under a new id restores the list. */
  lemma DeleteUndoesAdd(ps: seq<HostProfile>, p: HostProfile)
    requires FirstIndexById(ps, p.id).None?
    ensures DeleteProfile(AddProfile(ps, p), p).0 == ps
  {
    RemoveAllDistributes(ps, [p], p.id);
    RemoveAllAbsent(ps, p.id);
  }

  // ---------------------------------------------------------------------
  // Update
  // ---------------------------------------------------------------------

  /** `First` throws when no profile carries the id; nothing is saved. */
  datatype UpdateError = NoProfileWithId

  /** `UpdateProfile(profile)`: the first stored profile with the same id is
      removed and the new one is appended, so the length stays the same; a
      missing id is an error. */
  function UpdateProfile(ps: seq<HostProfile>, p: HostProfile): (r: Result<seq<HostProfile>, UpdateError>)
    ensures r.Failure? <==> forall j :: 0 <= j < |ps| ==> ps[j].id != p.id
    ensures r.Success? ==> |r.value| == |ps| && r.value[|ps| - 1] == p
    ensures r.Success? ==> multiset(r.value) + multiset{FirstById(ps, p.id).value} == multiset(ps) + multiset{p}
  {
    match FirstIndexById(ps, p.id)
    case None => Failure(NoProfileWithId)
    case Some(i) =>
      var r := ps[..i] + ps[i + 1..] + [p];
      assert ps == ps[..i] + [ps[i]] + ps[i + 1..];
      assert multiset(ps) == multiset(ps[..i]) + multiset{ps[i]} + multiset(ps[i + 1..]);
      Success(r)
  }

  /** The profile at each position of a successful update: the profiles
      before the replaced one, then those after it moved down by one, then the
      new profile. */
  lemma UpdatedAt(ps: seq<HostProfile>, p: HostProfile, k: nat)
    requires UpdateProfile(ps, p).Success?
    requires k < |ps|
    ensures var i := FirstIndexById(ps, p.id).value;
            UpdateProfile(ps, p).value[k] == if k < i then ps[k] else if k < |ps| - 1 then ps[k + 1] else p
  {
    var i := FirstIndexById(ps, p.id).value;
    var front, back := ps[..i], ps[i + 1..];
    assert UpdateProfile(ps, p).value == front + back + [p];
    if k < i {
      assert (front + back + [p])[k] == front[k];
    } else if k < |ps| - 1 {
      assert (front + back + [p])[k] == back[k - i];
    }
  }

  /** With unique ids, an update keeps them unique. */
  lemma UpdateKeepsIdsUnique(ps: seq<HostProfile>, p: HostProfile)
    requires UniqueIds(ps)
    requires UpdateProfile(ps, p).Success?
    ensures UniqueIds(UpdateProfile(ps, p).value)
  {
    var r := UpdateProfile(ps, p).value;
    var i := FirstIndexById(ps, p.id).value;
    forall a, b | 0 <= a < b < |r|
      ensures r[a].id != r[b].id
    {
      UpdatedAt(ps, p, a);
      UpdatedAt(ps, p, b);
    }
  }

  /** After an update, the id finds the new profile. */
  lemma UpdateFindsNewProfile(ps: seq<HostProfile>, p: HostProfile)
    requires UniqueIds(ps)
    requires UpdateProfile(ps, p).Success?
    ensures FirstById(UpdateProfile(ps, p).value, p.id) == Some(p)
  {
    var r := UpdateProfile(ps, p).value;
    forall j | 0 <= j < |r| - 1
      ensures r[j].id != p.id
    {
      UpdatedAt(ps, p, j);
    }
    UpdatedAt(ps, p, |r| - 1);
    FirstIndexAt(r, p.id, |r| - 1);
  }

  /** After an update, every other id still finds the profile it found
      before. */
  lemma UpdateKeepsOtherLookups(ps: seq<HostProfile>, p: HostProfile, other: string)
    requires UpdateProfile(ps, p).Success?
    requires other != p.id
    ensures FirstById(UpdateProfile(ps, p).value, other) == FirstById(ps, other)
  {
    var r := UpdateProfile(ps, p).value;
    var i := FirstIndexById(ps, p.id).value;
    match FirstIndexById(ps, other)
    case None =>
      forall j | 0 <= j < |r|
        ensures r[j].id != other
      {
        UpdatedAt(ps, p, j);
      }
    case Some(m) =>
      var n := if m < i then m else m - 1;
      forall j | 0 <= j < n
        ensures r[j].id != other
      {
        UpdatedAt(ps, p, j);
      }
      UpdatedAt(ps, p, n);
      FirstIndexAt(r, other, n);
  }
}
