// The depth-first check of nested fixture maps, which may refer back to one another.
module Fixtures {
  import opened Text
  import opened CanonicalJson

  datatype Parsed = NotUtf8 | NotJson | Value(json: Json)

  // `files` by resolved path; `child` resolves a fixture name beside a file, None when the
  // name is unsafe or leaves the checkout. Objects are as Python's dictionaries hold them.
  datatype Checkout = Checkout(files: map<string, string>, parse: string -> Parsed, digest: string -> string,
    child: (string, string) -> Option<string>)

  datatype Fault = MapNotObject | BadDigest | UnsafeName | Missing | Mismatch | Undecodable

  predicate IsDigest(s: string) {
    |s| == 64 && forall i :: 0 <= i < 64 ==> '0' <= s[i] <= '9' || 'a' <= s[i] <= 'f'
  }

  // What a payload has under "fixtures".
  function FixtureMap(payload: Json): Option<Json> {
    if payload.Obj? && "fixtures" in Keys(payload.members)
    then Some(payload.members[Find(payload.members, "fixtures")].value)
    else None
  }

  // The fixture map a file carries, if it is a JSON file with one.
  ghost function MapOf(co: Checkout, file: string): Option<Json> {
    if file in co.files && co.parse(co.files[file]).Value? then FixtureMap(co.parse(co.files[file]).json) else None
  }

  ghost function Entries(co: Checkout, file: string): seq<Member> {
    if MapOf(co, file).Some? && MapOf(co, file).value.Obj? then MapOf(co, file).value.members else []
  }

  ghost predicate HexDigest(v: Json) {
    v.Str? && |v.text| == 64 && forall c :: c in v.text ==> c in "0123456789abcdef"
  }

  // The entry gives a digest, names a readable file of the checkout, and that file has it.
  ghost predicate EntryHolds(co: Checkout, from: string, m: Member) {
    && HexDigest(m.value) && co.child(from, m.key).Some? && co.child(from, m.key).value in co.files
    && var content := co.files[co.child(from, m.key).value];
       co.digest(content) == m.value.text && co.parse(content) != NotUtf8
  }

  // What a fault says of an entry, everything checked before it being in order.
  ghost predicate EntryFails(co: Checkout, from: string, m: Member, f: Fault) {
    if f == BadDigest then !HexDigest(m.value)
    else
      && HexDigest(m.value)
      && var child := co.child(from, m.key);
         match f
         case UnsafeName => child.None?
         case Missing => child.Some? && child.value !in co.files
         case Mismatch => child.Some? && child.value in co.files && co.digest(co.files[child.value]) != m.value.text
         case Undecodable =>
           && child.Some? && child.value in co.files && co.digest(co.files[child.value]) == m.value.text
           && co.parse(co.files[child.value]) == NotUtf8
         case _ => false
  }

  // An entry holds unless it has a fault, and it has one at most.
  lemma OneFaultAtMost(co: Checkout, from: string, m: Member)
    ensures EntryHolds(co, from, m) <==> forall f :: !EntryFails(co, from, m, f)
    ensures forall f, g :: EntryFails(co, from, m, f) && EntryFails(co, from, m, g) ==> f == g
  {
    if !EntryHolds(co, from, m) {
      assert EntryFails(co, from, m, BadDigest) || EntryFails(co, from, m, UnsafeName)
        || EntryFails(co, from, m, Missing) || EntryFails(co, from, m, Mismatch)
        || EntryFails(co, from, m, Undecodable);
    }
  }

  lemma DigestMeans(v: Json)
    ensures v.Str? && IsDigest(v.text) <==> HexDigest(v)
  {
    assert forall c: char :: c in "0123456789abcdef" <==> '0' <= c <= '9' || 'a' <= c <= 'f';
    if HexDigest(v) {
      assert forall i :: 0 <= i < |v.text| ==> v.text[i] in v.text;
    }
  }

  // A file's map is what its JSON object has under "fixtures".
  lemma MapMeans(co: Checkout, file: string)
    ensures MapOf(co, file).Some? ==>
              && file in co.files && co.parse(co.files[file]).Value? && co.parse(co.files[file]).json.Obj?
              && Member("fixtures", MapOf(co, file).value) in co.parse(co.files[file]).json.members
    ensures MapOf(co, file).None? && file in co.files && co.parse(co.files[file]).Value? ==>
              var json := co.parse(co.files[file]).json;
              json.Obj? ==> forall m :: m in json.members ==> m.key != "fixtures"
  {
    if file in co.files && co.parse(co.files[file]).Value? && co.parse(co.files[file]).json.Obj? {
      var ms := co.parse(co.files[file]).json.members;
      if m :| m in ms && m.key == "fixtures" {
        var i :| 0 <= i < |ms| && ms[i] == m;
        assert Keys(ms)[i] == "fixtures";
      }
    }
  }

  ghost predicate FaultAt(co: Checkout, file: string, f: Fault) {
    || (f == MapNotObject && MapOf(co, file).Some? && !MapOf(co, file).value.Obj?)
    || (exists m :: m in Entries(co, file) && EntryFails(co, file, m, f))
  }

  // The file's map, if any, is an object all of whose entries hold.
  ghost predicate Sound(co: Checkout, file: string) {
    && (MapOf(co, file).Some? ==> MapOf(co, file).value.Obj?)
    && (forall m :: m in Entries(co, file) ==> EntryHolds(co, file, m))
  }

  ghost predicate Edge(co: Checkout, a: string, b: string) {
    exists i :: 0 <= i < |Entries(co, a)| && co.child(a, Entries(co, a)[i].key) == Some(b)
  }

  ghost predicate Path(co: Checkout, p: seq<string>) {
    p != [] && forall i :: 0 <= i < |p| - 1 ==> Edge(co, p[i], p[i + 1])
  }

  ghost predicate Reaches(co: Checkout, a: string, b: string) {
    exists p :: Path(co, p) && p[0] == a && p[|p| - 1] == b
  }

  ghost predicate AllReachableSound(co: Checkout, start: string) {
    forall x :: Reaches(co, start, x) ==> Sound(co, x)
  }

  lemma ReachesSelf(co: Checkout, a: string)
    ensures Reaches(co, a, a)
  {
    assert Path(co, [a]);
  }

  lemma ReachesVia(co: Checkout, a: string, b: string, c: string)
    requires Edge(co, a, b) && Reaches(co, b, c)
    ensures Reaches(co, a, c)
  {
    var p :| Path(co, p) && p[0] == b && p[|p| - 1] == c;
    var q := [a] + p;
    forall i | 0 <= i < |q| - 1
      ensures Edge(co, q[i], q[i + 1])
    {
      if i > 0 {
        assert Edge(co, p[i - 1], p[i]);
      }
    }
    assert Path(co, q);
  }

  // A closed set of sound files holds everything that can be reached from it.
  lemma {:induction false} ClosedHoldsPath(co: Checkout, s: set<string>, p: seq<string>, i: nat)
    requires Path(co, p) && i < |p| && p[0] in s
    requires forall x, y :: x in s && Edge(co, x, y) ==> y in s
    ensures p[i] in s
  {
    if i > 0 {
      ClosedHoldsPath(co, s, p, i - 1);
      assert Edge(co, p[i - 1], p[i]);
    }
  }

  ghost predicate Checked(co: Checkout, file: string, s: set<string>) {
    Sound(co, file) && forall y :: Edge(co, file, y) ==> y in s
  }

  ghost predicate AllChecked(co: Checkout, xs: set<string>, s: set<string>) {
    forall x :: x in xs ==> Checked(co, x, s)
  }

  ghost predicate EntryDone(co: Checkout, file: string, m: Member, s: set<string>) {
    EntryHolds(co, file, m) && co.child(file, m.key).value in s
  }

  lemma CheckedGrows(co: Checkout, r: set<string>, s: set<string>, t: set<string>)
    requires AllChecked(co, s - r, s) && AllChecked(co, t - s, t) && s <= t
    ensures AllChecked(co, t - r, t)
  {
    assert forall x :: x in t - r ==> x in s - r || x in t - s;
  }

  lemma LeafIsChecked(co: Checkout, file: string, s: set<string>)
    requires MapOf(co, file) == None
    ensures Checked(co, file, s)
  {
  }

  lemma EntriesAreChecked(co: Checkout, file: string, s: set<string>)
    requires MapOf(co, file).Some? && MapOf(co, file).value.Obj?
    requires forall j :: 0 <= j < |Entries(co, file)| ==> EntryDone(co, file, Entries(co, file)[j], s)
    ensures Checked(co, file, s)
  {
    forall y | Edge(co, file, y)
      ensures y in s
    {
      var j :| 0 <= j < |Entries(co, file)| && co.child(file, Entries(co, file)[j].key) == Some(y);
      assert EntryDone(co, file, Entries(co, file)[j], s);
    }
    forall m | m in Entries(co, file)
      ensures EntryHolds(co, file, m)
    {
      var j :| 0 <= j < |Entries(co, file)| && Entries(co, file)[j] == m;
      assert EntryDone(co, file, Entries(co, file)[j], s);
    }
  }

  lemma ClosedIsSound(co: Checkout, s: set<string>, start: string)
    requires AllChecked(co, s, s) && start in s
    ensures AllReachableSound(co, start)
  {
    forall x | Reaches(co, start, x)
      ensures Sound(co, x)
    {
      var p :| Path(co, p) && p[0] == start && p[|p| - 1] == x;
      ClosedHoldsPath(co, s, p, |p| - 1);
      assert Checked(co, x, s);
    }
  }

  class Walk {
    const co: Checkout
    var seen: set<string>

    constructor (co: Checkout, seen: set<string>)
      ensures this.co == co && this.seen == seen
    {
      this.co, this.seen := co, seen;
    }

    // Every file seen has been read and decoded.
    ghost predicate AllRead()
      reads this
    {
      forall x :: x in seen ==> x in co.files && co.parse(co.files[x]) != NotUtf8
    }

    method VerifyNested(from: string, payload: Json) returns (r: Option<Fault>)
      requires from in co.files && co.parse(co.files[from]) == Value(payload) && AllRead()
      modifies this
      ensures old(seen) <= seen
      ensures r.None? ==> AllRead() && Checked(co, from, seen) && AllChecked(co, seen - old(seen), seen)
      ensures r.Some? ==> exists x :: Reaches(co, from, x) && FaultAt(co, x, r.value)
      decreases co.files.Keys - seen, 1
    {
      ReachesSelf(co, from);
      var fixtures := FixtureMap(payload);
      assert fixtures == MapOf(co, from);
      if fixtures.None? {
        LeafIsChecked(co, from, seen);
        return None;
      }
      if !fixtures.value.Obj? {
        assert FaultAt(co, from, MapNotObject);
        return Some(MapNotObject);
      }
      var entries := fixtures.value.members;
      assert entries == Entries(co, from);
      for i := 0 to |entries|
        invariant old(seen) <= seen && AllRead() && AllChecked(co, seen - old(seen), seen)
        invariant forall j :: 0 <= j < i ==> EntryDone(co, from, entries[j], seen)
      {
        ghost var before := seen;
        r := VerifyEntry(from, entries[i]);
        if r.Some? {
          return;
        }
        CheckedGrows(co, old(seen), before, seen);
      }
      EntriesAreChecked(co, from, seen);
      r := None;
    }

    method VerifyEntry(from: string, m: Member) returns (r: Option<Fault>)
      requires MapOf(co, from).Some? && MapOf(co, from).value.Obj? && m in Entries(co, from) && AllRead()
      modifies this
      ensures old(seen) <= seen
      ensures r.None? ==> AllRead() && EntryDone(co, from, m, seen) && AllChecked(co, seen - old(seen), seen)
      ensures r.Some? ==> exists x :: Reaches(co, from, x) && FaultAt(co, x, r.value)
      decreases co.files.Keys - seen, 0
    {
      ReachesSelf(co, from);
      var child;
      r, child := CheckEntry(from, m);
      if r.Some? || child in seen {
        return;
      }
      seen := seen + {child};
      var parsed := co.parse(co.files[child]);
      if parsed.NotUtf8? {
        assert EntryFails(co, from, m, Undecodable);
        return Some(Undecodable);
      }
      if parsed.Value? {
        ghost var before := seen;
        r := VerifyNested(child, parsed.json);
        if r.Some? {
          ghost var x :| Reaches(co, child, x) && FaultAt(co, x, r.value);
          ReachesVia(co, from, child, x);
          return;
        }
        assert seen - old(seen) == {child} + (seen - before);
      } else {
        LeafIsChecked(co, child, seen);
        assert seen - old(seen) == {child};
      }
    }

    // The checks that do not need the child's text.
    method CheckEntry(from: string, m: Member) returns (r: Option<Fault>, child: string)
      ensures r.Some? ==> EntryFails(co, from, m, r.value)
      ensures r.None? ==> HexDigest(m.value) && co.child(from, m.key) == Some(child) && child in co.files
      ensures r.None? ==> co.digest(co.files[child]) == m.value.text
    {
      r, child := None, "";
      DigestMeans(m.value);
      if !m.value.Str? || !IsDigest(m.value.text) {
        return Some(BadDigest), "";
      }
      var found := co.child(from, m.key);
      if found.None? {
        return Some(UnsafeName), "";
      }
      child := found.value;
      if child !in co.files {
        return Some(Missing), child;
      }
      if co.digest(co.files[child]) != m.value.text {
        return Some(Mismatch), child;
      }
    }
  }

  // A contract file is verified with itself already seen. The walk ends, and passes exactly
  // when every map reachable from the contract is sound; otherwise what it raises is wrong
  // with one of those maps.
  method VerifyContract(co: Checkout, contract: string, payload: Json) returns (r: Option<Fault>)
    requires contract in co.files && co.parse(co.files[contract]) == Value(payload)
    ensures r.None? <==> AllReachableSound(co, contract)
    ensures r.Some? ==> exists x :: Reaches(co, contract, x) && FaultAt(co, x, r.value)
  {
    var walk := new Walk(co, {contract});
    r := walk.VerifyNested(contract, payload);
    if r.None? {
      ghost var seen := walk.seen;
      assert seen == {contract} + (seen - {contract});
      ClosedIsSound(co, seen, contract);
    }
  }
}
