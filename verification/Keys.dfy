/** The object names of internal/store/s3store.go, and what a listing by prefix returns. */
module Keys {
  import opened Types
  import opened Decimal
  import opened Contracts

  /** Where a stack lives. */
  datatype Path = Path(org: string, project: string, stack: string)

  /** The part of validStorageSegment that the layout of names depends on. */
  predicate Segment(s: string) {
    '/' !in s
  }

  predicate ValidPath(p: Path) {
    Segment(p.org) && Segment(p.project) && Segment(p.stack)
  }

  predicate ValidKey(key: Key) {
    match key
    case StackKey => true
    case LockKey => true
    case UpdateKey(inc, id) => Segment(inc) && Segment(id)
    case LatestKey(inc) => Segment(inc)
    case HistoryKey(inc, _) => Segment(inc)
    case ObjectKey(inc, digest) => Segment(inc) && Segment(digest)
  }

  /** The names of checkpoint objects qualify. */
  lemma CheckpointNamesAreValid(incarnation: string, deployment: Deployment)
    requires Segment(incarnation)
    ensures ValidKey(CheckpointObject(incarnation, deployment))
  {
    DigestSlashFree(deployment);
  }

  // ---------------------------------------------------------------- the key builders

  function StackPrefix(p: Path): string {
    p.org + "/" + p.project + "/" + p.stack + "/"
  }

  function StackDataPrefix(p: Path, incarnation: string): string {
    StackPrefix(p) + if incarnation != "" then "incarnations/" + incarnation + "/" else ""
  }

  function Render(p: Path, key: Key): string {
    match key
    case StackKey => StackPrefix(p) + "stack.json"
    case LockKey => StackPrefix(p) + "lock.json"
    case UpdateKey(inc, id) => StackDataPrefix(p, inc) + "updates/" + (id + ".json")
    case LatestKey(inc) => StackDataPrefix(p, inc) + "checkpoints/" + "latest.json"
    case HistoryKey(inc, v) => StackDataPrefix(p, inc) + "checkpoints/history/" + (Itoa(v) + ".json")
    case ObjectKey(inc, digest) => StackDataPrefix(p, inc) + "checkpoints/objects/" + (digest + ".json")
  }

  /** What listStackIncarnationObjects keeps of the bucket's names. */
  predicate Listed(p: Path, incarnation: string, name: string) {
    if incarnation != "" then StackDataPrefix(p, incarnation) <= name
    else
      && StackPrefix(p) <= name && name != Render(p, StackKey)
      && !(StackPrefix(p) + "incarnations/" <= name)
  }

  // ---------------------------------------------------------------- names as directories and a leaf

  function Dir(xs: seq<string>): string {
    if xs == [] then "" else xs[0] + "/" + Dir(xs[1..])
  }

  predicate Segments(xs: seq<string>) {
    forall i | 0 <= i < |xs| :: Segment(xs[i])
  }

  lemma {:induction false} DirAppend(xs: seq<string>, ys: seq<string>)
    ensures Dir(xs + ys) == Dir(xs) + Dir(ys)
  {
    if xs == [] {
      assert xs + ys == ys;
    } else {
      DirAppend(xs[1..], ys);
      assert (xs + ys)[1..] == xs[1..] + ys;
    }
  }

  /** The first segment of a name ends where its first slash is. */
  lemma FirstSegment(a: string, x: string, b: string, y: string)
    requires Segment(a) && Segment(b) && a + "/" + x == b + "/" + y
    ensures a == b && x == y
  {
    var s, t := a + "/" + x, b + "/" + y;
    assert (forall i | 0 <= i < |a| :: s[i] == a[i]) && s[|a|] == '/';
    assert (forall i | 0 <= i < |b| :: t[i] == b[i]) && t[|b|] == '/';
    assert |a| == |b|;
    assert a == s[..|a|] && b == t[..|b|] && x == s[|a| + 1..] && y == t[|b| + 1..];
  }

  /** Directories and leaf can be read back from a name; more generally, a directory prefix of a name is a
      prefix of its directories. */
  lemma {:induction false} DirPrefix(xs: seq<string>, a: string, ys: seq<string>, b: string)
    requires Segments(xs) && Segments(ys) && Segment(b) && Dir(xs) + a == Dir(ys) + b
    ensures xs <= ys && a == Dir(ys[|xs|..]) + b
  {
    if xs == [] {
      assert ys[0..] == ys && "" + a == a;
    } else {
      assert Dir(xs) + a == xs[0] + "/" + (Dir(xs[1..]) + a);
      assert (Dir(xs) + a)[|xs[0]|] == '/';
      assert ys == [] ==> Dir(ys) + b == b;
      assert Dir(ys) + b == ys[0] + "/" + (Dir(ys[1..]) + b);
      FirstSegment(xs[0], Dir(xs[1..]) + a, ys[0], Dir(ys[1..]) + b);
      DirPrefix(xs[1..], a, ys[1..], b);
      assert ys[1..][|xs| - 1..] == ys[|xs|..];
      assert xs == [xs[0]] + xs[1..] && ys == [ys[0]] + ys[1..];
    }
  }

  lemma NameInjective(xs: seq<string>, a: string, ys: seq<string>, b: string)
    requires Segments(xs) && Segments(ys) && Segment(a) && Segment(b) && Dir(xs) + a == Dir(ys) + b
    ensures xs == ys && a == b
  {
    DirPrefix(xs, a, ys, b);
    DirPrefix(ys, b, xs, a);
    assert ys[|xs|..] == [];
  }

  /** A directory prefix matches exactly the names that lie below the directory. */
  lemma BelowDirectory(xs: seq<string>, ys: seq<string>, b: string)
    requires Segments(xs) && Segments(ys) && Segment(b)
    ensures Dir(xs) <= Dir(ys) + b <==> xs <= ys
  {
    var name := Dir(ys) + b;
    if Dir(xs) <= name {
      assert name == Dir(xs) + name[|Dir(xs)|..];
      DirPrefix(xs, name[|Dir(xs)|..], ys, b);
    }
    if xs <= ys {
      assert ys == xs + ys[|xs|..];
      DirAppend(xs, ys[|xs|..]);
    }
  }

  function Home(p: Path): seq<string> {
    [p.org, p.project, p.stack]
  }

  function DataHome(p: Path, inc: string): seq<string> {
    if inc == "" then Home(p) else Home(p) + ["incarnations", inc]
  }

  function Below(key: Key): seq<string> {
    match key
    case StackKey => []
    case LockKey => []
    case UpdateKey(_, _) => ["updates"]
    case LatestKey(_) => ["checkpoints"]
    case HistoryKey(_, _) => ["checkpoints", "history"]
    case ObjectKey(_, _) => ["checkpoints", "objects"]
  }

  function Within(key: Key): string {
    if key.StackKey? || key.LockKey? then "" else key.incarnation
  }

  function Directories(p: Path, key: Key): seq<string> {
    DataHome(p, Within(key)) + Below(key)
  }

  function Leaf(key: Key): string {
    match key
    case StackKey => "stack.json"
    case LockKey => "lock.json"
    case UpdateKey(_, id) => id + ".json"
    case LatestKey(_) => "latest.json"
    case HistoryKey(_, v) => Itoa(v) + ".json"
    case ObjectKey(_, digest) => digest + ".json"
  }

  lemma DirOne(a: string)
    ensures Dir([a]) == a + "/"
  {
    assert [a][1..] == [];
  }

  lemma DirTwo(a: string, b: string)
    ensures Dir([a, b]) == a + "/" + (b + "/")
  {
    assert [a, b][1..] == [b];
    DirOne(b);
  }

  lemma HomePrefix(p: Path)
    ensures StackPrefix(p) == Dir(Home(p))
  {
    assert Home(p)[1..] == [p.project, p.stack];
    DirTwo(p.project, p.stack);
  }

  lemma DataPrefix(p: Path, inc: string)
    ensures StackDataPrefix(p, inc) == Dir(DataHome(p, inc))
  {
    HomePrefix(p);
    if inc != "" {
      DirAppend(Home(p), ["incarnations", inc]);
      DirTwo("incarnations", inc);
    }
  }

  /** Each spelled-out subdirectory is the segments it names. */
  function Sub(key: Key): (s: string)
    ensures s == Dir(Below(key))
  {
    match key
    case StackKey => ""
    case LockKey => ""
    case UpdateKey(_, _) => DirOne("updates"); "updates/"
    case LatestKey(_) => DirOne("checkpoints"); "checkpoints/"
    case HistoryKey(_, _) => DirTwo("checkpoints", "history"); "checkpoints/history/"
    case ObjectKey(_, _) => DirTwo("checkpoints", "objects"); "checkpoints/objects/"
  }

  lemma RenderIsName(p: Path, key: Key)
    ensures Render(p, key) == Dir(Directories(p, key)) + Leaf(key)
  {
    DataPrefix(p, Within(key));
    DirAppend(DataHome(p, Within(key)), Below(key));
    assert Render(p, key) == StackDataPrefix(p, Within(key)) + Sub(key) + Leaf(key);
  }

  lemma NamesAreSegments(p: Path, key: Key)
    requires ValidPath(p) && ValidKey(key)
    ensures Segments(Directories(p, key)) && Segment(Leaf(key))
  {
    assert Segments(Home(p)) && Segments(DataHome(p, Within(key))) && Segments(Below(key));
    LeafIsSegment(key);
  }

  lemma LeafIsSegment(key: Key)
    requires ValidKey(key)
    ensures Segment(Leaf(key))
  {
    if key.HistoryKey? {
      assert Segment(Itoa(key.version));
    }
  }

  /** No two objects, of the same stack or of different ones, share a name. */
  lemma RenderInjective(p1: Path, k1: Key, p2: Path, k2: Key)
    requires ValidPath(p1) && ValidKey(k1) && ValidPath(p2) && ValidKey(k2)
    requires Render(p1, k1) == Render(p2, k2)
    ensures p1 == p2 && k1 == k2
  {
    RenderIsName(p1, k1);
    RenderIsName(p2, k2);
    NamesAreSegments(p1, k1);
    NamesAreSegments(p2, k2);
    NameInjective(Directories(p1, k1), Leaf(k1), Directories(p2, k2), Leaf(k2));
    SameDirectories(p1, k1, p2, k2);
    SameLeaf(k1, k2);
  }

  lemma SameDirectories(p1: Path, k1: Key, p2: Path, k2: Key)
    requires Directories(p1, k1) == Directories(p2, k2)
    ensures p1 == p2 && Within(k1) == Within(k2) && Below(k1) == Below(k2)
  {
    HomeOf(p1, k1, p2);
    HomeOf(p2, k2, p1);
    var d := Directories(p1, k1);
    assert Within(k1) != "" ==> Below(k1) != [] && d[4] == Within(k1);
    assert Within(k2) != "" ==> Below(k2) != [] && d[4] == Within(k2);
    assert |Below(k1)| <= 2 && |Below(k2)| <= 2;
    assert d[|DataHome(p1, Within(k1))|..] == Below(k1) && d[|DataHome(p2, Within(k2))|..] == Below(k2);
  }

  lemma Cancel(a: string, b: string, suffix: string)
    requires a + suffix == b + suffix
    ensures a == b
  {
    assert |a| == |b|;
    assert a == (a + suffix)[..|a|] && b == (b + suffix)[..|b|];
  }

  lemma SameLeaf(k1: Key, k2: Key)
    requires Within(k1) == Within(k2) && Below(k1) == Below(k2) && Leaf(k1) == Leaf(k2)
    ensures k1 == k2
  {
    assert Below(k1) == [] || |Below(k1)| == 1 || (|Below(k1)| == 2 && Below(k1)[1] == Below(k2)[1]);
    assert |Below(k1)| == 1 ==> Below(k1)[0] == Below(k2)[0];
    assert |"updates"| != |"checkpoints"| && "history"[0] != "objects"[0];
    match k1
    case StackKey => assert |Leaf(k1)| == |Leaf(k2)|;
    case LockKey => assert |Leaf(k1)| == |Leaf(k2)|;
    case LatestKey(_) =>
    case UpdateKey(_, id) => Cancel(id, k2.id, ".json");
    case HistoryKey(_, v) => Cancel(Itoa(v), Itoa(k2.version), ".json"); ItoaInjective(v, k2.version);
    case ObjectKey(_, digest) => Cancel(digest, k2.digest, ".json");
  }

  lemma HomeOf(p: Path, key: Key, p': Path)
    ensures Home(p') <= Directories(p, key) <==> p == p'
  {
    assert Directories(p, key)[..3] == Home(p);
    assert Home(p)[0] == p.org && Home(p)[1] == p.project && Home(p)[2] == p.stack;
    assert Home(p')[0] == p'.org && Home(p')[1] == p'.project && Home(p')[2] == p'.stack;
  }

  lemma IncarnationOf(p: Path, key: Key)
    ensures Home(p) + ["incarnations"] <= Directories(p, key) <==> Within(key) != ""
    ensures forall inc: string :: inc != "" ==> (DataHome(p, inc) <= Directories(p, key) <==> Within(key) == inc)
  {
    var d := Directories(p, key);
    assert |"updates"| != |"incarnations"| && |"checkpoints"| != |"incarnations"|;
    assert Below(key) != [] ==> Below(key)[0] != "incarnations";
    assert Within(key) == "" && Below(key) != [] ==> d[3] == Below(key)[0];
    assert Within(key) != "" ==> d[3] == "incarnations" && d[4] == Within(key);
    forall inc: string | inc != ""
      ensures DataHome(p, inc) <= d <==> Within(key) == inc
    {
      assert DataHome(p, inc)[3] == "incarnations" && DataHome(p, inc)[4] == inc;
    }
    assert (Home(p) + ["incarnations"])[3] == "incarnations";
  }

  /** A listing by a directory's prefix returns the names below that directory. */
  lemma ListedBelow(xs: seq<string>, p: Path, key: Key)
    requires Segments(xs) && ValidPath(p) && ValidKey(key)
    ensures Dir(xs) <= Render(p, key) <==> xs <= Directories(p, key)
  {
    RenderIsName(p, key);
    NamesAreSegments(p, key);
    BelowDirectory(xs, Directories(p, key), Leaf(key));
  }

  /** A legacy listing keeps what is below the stack's directory but not below its incarnations. */
  lemma LegacyListing(p: Path, p': Path, key: Key)
    requires ValidPath(p) && ValidPath(p') && ValidKey(key)
    ensures StackPrefix(p) <= Render(p', key) <==> p == p'
    ensures StackPrefix(p) + "incarnations/" <= Render(p', key) <==> p == p' && Within(key) != ""
  {
    var newer := Home(p) + ["incarnations"];
    HomePrefix(p);
    HomeOf(p', key, p);
    ListedBelow(Home(p), p', key);
    DirAppend(Home(p), ["incarnations"]);
    DirOne("incarnations");
    ListedBelow(newer, p', key);
    IncarnationOf(p', key);
    assert newer <= Directories(p', key) ==> Home(p) <= Directories(p', key);
  }

  /** What a deletion of one incarnation lists is exactly what belongs to it: never stack.json, never another
      stack's object, never another incarnation's. */
  lemma ListedExactly(p: Path, inc: string, p': Path, key: Key)
    requires ValidPath(p) && Segment(inc) && ValidPath(p') && ValidKey(key)
    ensures Listed(p, inc, Render(p', key)) <==> p == p' && (InIncarnation(key, inc) || (inc == "" && key == LockKey))
  {
    if inc != "" {
      DataPrefix(p, inc);
      ListedBelow(DataHome(p, inc), p', key);
      HomeOf(p', key, p);
      IncarnationOf(p', key);
      assert DataHome(p, inc) <= Directories(p', key) ==> Home(p) <= Directories(p', key);
    } else {
      LegacyListing(p, p', key);
      if p == p' && Render(p', key) == Render(p, StackKey) {
        RenderInjective(p', key, p, StackKey);
      }
    }
  }
}
