/** The part of the `pykeepass` library the credential store relies on, as an
    immutable value.

    A database is its root group, the groups directly below the root and the
    append-only pool of binaries that attachments point into. Deeper nesting is
    not used by the store and is not modelled. Encryption and the KDBX file
    format are a pair of functions: `seal` turns a database, a password and an
    optional key file into the bytes written to disk, `unseal` opens them. */
module PyKeePass {
  import opened Wrappers
  import opened FileSystem

  /** `entry.add_attachment(id, filename)`: `id` indexes the binary pool. */
  datatype Attachment = Attachment(id: int, filename: string)

  datatype Entry = Entry(
    title: string,
    username: string,
    password: string,
    url: Option<string>,
    notes: Option<string>,
    expiry: Option<string>,
    tags: seq<string>,
    otp: Option<string>,
    icon: Option<string>,
    custom: map<string, string>,
    attachments: seq<Attachment>)

  datatype Group = Group(name: string, entries: seq<Entry>)

  datatype Store = Store(root: Group, groups: seq<Group>, binaries: seq<Bytes>)

  /** A group handle: the root, or the i-th group below it. */
  datatype GroupRef = Root | Sub(index: nat)

  /** A database freshly made by `create_database`. */
  function EmptyStore(rootName: string): Store {
    Store(Group(rootName, []), [], [])
  }

  predicate ValidRef(kp: Store, g: GroupRef) {
    g.Sub? ==> g.index < |kp.groups|
  }

  function GroupAt(kp: Store, g: GroupRef): Group
    requires ValidRef(kp, g)
  {
    if g.Root? then kp.root else kp.groups[g.index]
  }

  /** Replaces one group, leaving the others and the binary pool alone. */
  function WithGroup(kp: Store, g: GroupRef, grp: Group): (r: Store)
    requires ValidRef(kp, g)
    ensures |r.groups| == |kp.groups| && r.binaries == kp.binaries
    ensures ValidRef(r, g) && GroupAt(r, g) == grp
    ensures g.Sub? ==> r.root == kp.root
    ensures forall i :: 0 <= i < |kp.groups| && g != Sub(i) ==> r.groups[i] == kp.groups[i]
  {
    if g.Root? then kp.(root := grp) else kp.(groups := kp.groups[g.index := grp])
  }

  /** Every entry of the database: the root's, then each group's in order. */
  function AllEntries(kp: Store): seq<Entry> {
    kp.root.entries + Flatten(kp.groups)
  }

  function Flatten(groups: seq<Group>): (r: seq<Entry>)
    ensures forall i :: 0 <= i < |groups| ==> |groups[i].entries| <= |r|
  {
    if |groups| == 0 then [] else groups[0].entries + Flatten(groups[1..])
  }

  /** `find_entries(group=g)`: recursive below `g`, so the root yields everything. */
  function EntriesIn(kp: Store, g: GroupRef): seq<Entry>
    requires ValidRef(kp, g)
  {
    if g.Root? then AllEntries(kp) else kp.groups[g.index].entries
  }

  /** The index of the first group named `name`, from `i` on. */
  function FirstNamed(groups: seq<Group>, name: string, i: nat): (r: Option<nat>)
    requires i <= |groups|
    ensures r.Some? ==> i <= r.value < |groups| && groups[r.value].name == name
    ensures r.Some? ==> forall j :: i <= j < r.value ==> groups[j].name != name
    ensures r.None? <==> forall j :: i <= j < |groups| ==> groups[j].name != name
    decreases |groups| - i
  {
    if i == |groups| then None
    else if groups[i].name == name then Some(i)
    else FirstNamed(groups, name, i + 1)
  }

  /** `find_groups(name=name, first=True)`: document order, root first. */
  function FindGroup(kp: Store, name: string): (r: Option<GroupRef>)
    ensures r.Some? ==> ValidRef(kp, r.value) && GroupAt(kp, r.value).name == name
    ensures r.None? <==> kp.root.name != name && forall j :: 0 <= j < |kp.groups| ==> kp.groups[j].name != name
    ensures r.Some? && r.value.Sub? ==>
      kp.root.name != name && forall j :: 0 <= j < r.value.index ==> kp.groups[j].name != name
  {
    if kp.root.name == name then Some(Root)
    else match FirstNamed(kp.groups, name, 0)
      case None => None
      case Some(i) => Some(Sub(i))
  }

  /** `add_group(name, destination_group=root_group)`. */
  function AddGroup(kp: Store, name: string): (r: (Store, GroupRef))
    ensures r.0.groups == kp.groups + [Group(name, [])]
    ensures r.0.root == kp.root && r.0.binaries == kp.binaries
    ensures r.1 == Sub(|kp.groups|) && ValidRef(r.0, r.1)
  {
    (kp.(groups := kp.groups + [Group(name, [])]), Sub(|kp.groups|))
  }

  /** An entry with this title and user name sits directly in the group. */
  predicate HasEntry(grp: Group, title: string, username: string) {
    exists i :: 0 <= i < |grp.entries| && grp.entries[i].title == title && grp.entries[i].username == username
  }

  /** `add_entry(destination_group=g, ..., force_creation=force)`: without
      `force`, a second entry with the same title and user name is refused. */
  function AddEntry(kp: Store, g: GroupRef, e: Entry, force: bool): (r: Result<Store>)
    requires ValidRef(kp, g)
    ensures r.Err? <==> !force && HasEntry(GroupAt(kp, g), e.title, e.username)
    ensures r.Ok? ==> ValidRef(r.value, g) && GroupAt(r.value, g).entries == GroupAt(kp, g).entries + [e]
    ensures r.Ok? ==> GroupAt(r.value, g).name == GroupAt(kp, g).name
    ensures r.Ok? ==> |r.value.groups| == |kp.groups| && r.value.binaries == kp.binaries
    ensures r.Ok? ==> forall i :: 0 <= i < |kp.groups| && g != Sub(i) ==> r.value.groups[i] == kp.groups[i]
    ensures r.Ok? && g.Sub? ==> r.value.root == kp.root
  {
    var grp := GroupAt(kp, g);
    if !force && HasEntry(grp, e.title, e.username) then Err(LibraryError("entry already exists"))
    else Ok(WithGroup(kp, g, grp.(entries := grp.entries + [e])))
  }

  /** `add_binary(data)`: appends to the pool and answers the new slot. */
  function AddBinary(kp: Store, data: Bytes): (r: (Store, nat))
    ensures r.0.binaries == kp.binaries + [data]
    ensures r.0.root == kp.root && r.0.groups == kp.groups
    ensures r.1 == |kp.binaries| && r.0.binaries[r.1] == data
  {
    (kp.(binaries := kp.binaries + [data]), |kp.binaries|)
  }

  /** Adding one entry to one group adds exactly one entry to the database. */
  lemma {:induction false} AddEntryCounts(kp: Store, g: GroupRef, e: Entry, force: bool)
    requires ValidRef(kp, g)
    requires AddEntry(kp, g, e, force).Ok?
    ensures |AllEntries(AddEntry(kp, g, e, force).value)| == |AllEntries(kp)| + 1
  {
    var r := AddEntry(kp, g, e, force).value;
    if g.Root? {
      assert r.groups == kp.groups;
    } else {
      assert r.root == kp.root;
      assert r.groups == kp.groups[g.index := r.groups[g.index]];
      FlattenUpdate(kp.groups, g.index, r.groups[g.index]);
    }
  }

  lemma {:induction false} FlattenUpdate(groups: seq<Group>, i: nat, grp: Group)
    requires i < |groups|
    ensures |Flatten(groups[i := grp])| == |Flatten(groups)| - |groups[i].entries| + |grp.entries|
    decreases i
  {
    if i == 0 {
      assert groups[i := grp][1..] == groups[1..];
    } else {
      assert groups[i := grp][1..] == groups[1..][i - 1 := grp];
      FlattenUpdate(groups[1..], i - 1, grp);
    }
  }

  /** `add_group` adds a group and no entry. */
  lemma AddGroupKeepsEntries(kp: Store, name: string)
    ensures |AllEntries(AddGroup(kp, name).0)| == |AllEntries(kp)|
  {
    FlattenAppend(kp.groups, [Group(name, [])]);
  }

  lemma {:induction false} FlattenAppend(a: seq<Group>, b: seq<Group>)
    ensures Flatten(a + b) == Flatten(a) + Flatten(b)
    decreases |a|
  {
    if |a| == 0 {
      assert a + b == b;
    } else {
      assert (a + b)[1..] == a[1..] + b;
      FlattenAppend(a[1..], b);
    }
  }

  /** The encryption and file format: what `save` writes and `PyKeePass(...)`
      reads back. */
  datatype Vault = Vault(
    seal: (Store, Bytes, Option<Bytes>) -> Bytes,
    unseal: (Bytes, Bytes, Option<Bytes>) -> Option<Store>)

  /** A database saved with some credentials opens with the same credentials. */
  ghost predicate Lawful(v: Vault) {
    forall kp, password, key :: v.unseal(v.seal(kp, password, key), password, key) == Some(kp)
  }

  /** The key file's bytes, when a key file is given. */
  function ReadKey(fs: FS, key: Option<Path>): (r: Result<Option<Bytes>>)
    ensures key.None? ==> r == Ok(None)
    ensures key.Some? ==> (r.Ok? <==> key.value in fs.files)
    ensures key.Some? && r.Ok? ==> r.value == Some(fs.files[key.value])
  {
    match key
      case None => Ok(None)
      case Some(k) =>
        match ReadFile(fs, k)
          case Err(e) => Err(e)
          case Ok(b) => Ok(Some(b))
  }

  /** `PyKeePass(filename, password, keyfile)`: reads and opens the database. */
  function Load(fs: FS, db: Path, password: Bytes, key: Option<Path>, v: Vault): (r: Result<Store>)
    ensures r.Ok? ==> db in fs.files && (key.Some? ==> key.value in fs.files)
    ensures r.Ok? ==> Some(r.value) == v.unseal(fs.files[db], password, ReadKey(fs, key).value)
  {
    match ReadFile(fs, db)
      case Err(e) => Err(e)
      case Ok(data) =>
        match ReadKey(fs, key)
          case Err(e) => Err(e)
          case Ok(k) =>
            match v.unseal(data, password, k)
              case None => Err(LibraryError("CredentialsError"))
              case Some(kp) => Ok(kp)
  }

  /** `kp.save()`: writes the sealed database over its file, which needs the
      file's directory to exist. */
  function Save(fs: FS, db: Path, kp: Store, password: Bytes, key: Option<Bytes>, v: Vault): (r: Result<FS>)
    ensures r.Err? <==> db in fs.dirs || Parent(db) !in fs.dirs
    ensures r.Ok? ==> r.value.files == fs.files[db := v.seal(kp, password, key)] && r.value.dirs == fs.dirs
  {
    WriteFile(fs, db, v.seal(kp, password, key))
  }

  /** A saved database loads back unchanged, with the same credentials. */
  lemma SaveLoad(fs: FS, db: Path, kp: Store, password: Bytes, key: Option<Path>, v: Vault)
    requires Lawful(v)
    requires db !in fs.dirs && Parent(db) in fs.dirs
    requires key.Some? ==> key.value in fs.files && key.value != db
    ensures var saved := Save(fs, db, kp, password, ReadKey(fs, key).value, v);
      saved.Ok? && Load(saved.value, db, password, key, v) == Ok(kp)
  {
    var k := ReadKey(fs, key).value;
    var fs1 := Save(fs, db, kp, password, k, v).value;
    assert ReadKey(fs1, key) == Ok(k);
    assert v.unseal(v.seal(kp, password, k), password, k) == Some(kp);
  }
}
