/** drivers/Quark/auth.go: the cookie string, read into names and values and written back
    (the cookie-string form of section 4.2.1 of RFC 6265). */
module Cookie {
  import opened Seqs
  import opened Text
  import opened Wrappers

  /** The names in the order of the string, and the last value of each. */
  datatype Jar = Jar(keys: seq<string>, vals: map<string, string>)

  // ----- strings.Split, strings.Index, strings.Join -----

  function IndexOf(s: string, c: char): (i: Option<nat>)
    ensures i == None <==> c !in s
    ensures i.Some? ==> i.value < |s| && s[i.value] == c && c !in s[..i.value]
  {
    if s == [] then None
    else if s[0] == c then Some(0)
    else
      var rest := IndexOf(s[1..], c);
      assert forall k :: k in s <==> k == s[0] || k in s[1..];
      if rest == None then None
      else
        assert s[..rest.value + 1] == [s[0]] + s[1..][..rest.value];
        Some(rest.value + 1)
  }

  function Split(s: string, c: char): (parts: seq<string>)
    ensures |parts| > 0
    ensures forall p :: p in parts ==> c !in p
    decreases |s|
  {
    var i := IndexOf(s, c);
    if i == None then [s] else [s[..i.value]] + Split(s[i.value + 1..], c)
  }

  function Join(parts: seq<string>): string {
    if parts == [] then "" else if |parts| == 1 then parts[0] else parts[0] + "; " + Join(parts[1..])
  }

  /** The parts as they come back from a joined string. */
  function Spaced(parts: seq<string>): (out: seq<string>)
    ensures |out| == |parts|
    ensures forall i :: 0 <= i < |parts| ==> out[i] == (if i == 0 then parts[0] else " " + parts[i])
  {
    seq(|parts|, i requires 0 <= i < |parts| => if i == 0 then parts[0] else " " + parts[i])
  }

  lemma IndexIs(a: string, c: char, b: string)
    requires c !in a
    ensures IndexOf(a + [c] + b, c) == Some(|a|)
    decreases |a|
  {
    var s := a + [c] + b;
    if a != [] {
      assert s[1..] == a[1..] + [c] + b;
      IndexIs(a[1..], c, b);
    }
  }

  lemma SplitFirst(a: string, b: string)
    requires ';' !in a
    ensures Split(a + ";" + b, ';') == [a] + Split(b, ';')
  {
    IndexIs(a, ';', b);
    var s := a + ";" + b;
    assert s == a + [';'] + b;
    assert s[..|a|] == a && s[|a| + 1..] == b;
  }

  lemma SplitSpace(s: string)
    ensures Split(" " + s, ';') == [" " + Split(s, ';')[0]] + Split(s, ';')[1..]
  {
    var i := IndexOf(s, ';');
    assert (" " + s)[1..] == s;
    if i.Some? {
      assert (" " + s)[..i.value + 1] == " " + s[..i.value];
      assert (" " + s)[i.value + 2..] == s[i.value + 1..];
    }
  }

  lemma SpacedMore(p: string, rest: seq<string>)
    requires |rest| > 0
    ensures Spaced([p] + rest) == [p] + ([" " + Spaced(rest)[0]] + Spaced(rest)[1..])
  {
    var a, b := Spaced([p] + rest), [p] + ([" " + Spaced(rest)[0]] + Spaced(rest)[1..]);
    forall i | 0 <= i < |a|
      ensures a[i] == b[i]
    {
      assert i > 0 ==> ([p] + rest)[i] == rest[i - 1];
    }
  }

  lemma JoinMore(p: string, rest: seq<string>)
    requires |rest| > 0
    ensures Join([p] + rest) == p + ";" + (" " + Join(rest))
  {
    assert ([p] + rest)[1..] == rest;
    SeparatorMoves(p, Join(rest));
  }

  lemma SeparatorMoves(p: string, t: string)
    ensures p + "; " + t == p + ";" + (" " + t)
  {
    assert ";" + " " == "; ";
    AppendAssoc(p, ";", " ");
    AppendAssoc(p + ";", " ", t);
  }

  /** Splitting a joined string gives the parts back, but for a space before each but the first. */
  lemma {:induction false} SplitJoin(parts: seq<string>)
    requires |parts| > 0 && forall p :: p in parts ==> ';' !in p
    ensures Split(Join(parts), ';') == Spaced(parts)
  {
    assert ';' !in parts[0];
    if |parts| == 1 {
      assert Spaced(parts) == [parts[0]];
      IndexOfNone(parts[0]);
    } else {
      var rest := parts[1..];
      SplitJoin(rest);
      hide Split, Spaced, IndexOf;
      assert parts == [parts[0]] + rest;
      JoinMore(parts[0], rest);
      SplitFirst(parts[0], " " + Join(rest));
      SplitSpace(Join(rest));
      SpacedMore(parts[0], rest);
    }
  }

  lemma IndexOfNone(s: string)
    requires ';' !in s
    ensures Split(s, ';') == [s]
  {
  }

  // ----- one part -----

  /** A name and a value, where the part has both. */
  function Pair(part: string): Option<(string, string)> {
    var p := Trim(part);
    var i := IndexOf(p, '=');
    if p == "" || i == None then None
    else if Trim(p[..i.value]) == "" then None
    else Some((Trim(p[..i.value]), Trim(p[i.value + 1..])))
  }

  ghost predicate GoodName(k: string) {
    k != "" && Trimmed(k) && '=' !in k && ';' !in k
  }

  lemma PairIsGood(part: string)
    requires ';' !in part && Pair(part).Some?
    ensures GoodName(Pair(part).value.0) && Trimmed(Pair(part).value.1) && ';' !in Pair(part).value.1
  {
    var p := Trim(part);
    TrimKeeps(part);
    var i := IndexOf(p, '=').value;
    TrimKeeps(p[..i]);
    TrimKeeps(p[i + 1..]);
    assert forall c :: c in p[..i] ==> c in p;
    assert forall c :: c in p[i + 1..] ==> c in p;
  }

  lemma PairByTrim(a: string, b: string)
    requires Trim(a) == Trim(b)
    ensures Pair(a) == Pair(b)
  {
  }

  /** A written part is read back with its value trimmed. */
  lemma {:induction false} PairOf(k: string, v: string)
    requires GoodName(k)
    ensures Pair(k + "=" + v) == Some((k, Trim(v)))
    decreases |v|
  {
    hide Pair, Trim, GoodName, IsSpace;
    if v != [] && IsSpace(v[|v| - 1]) {
      var w, c := v[..|v| - 1], v[|v| - 1];
      PairOf(k, w);
      assert v == w + [c] && k + "=" + v == (k + "=" + w) + [c];
      TrimRightPad(w, c);
      TrimRightPad(k + "=" + w, c);
      PairByTrim(k + "=" + v, k + "=" + w);
    } else {
      PairOfTrimmed(k, v);
    }
  }

  lemma PairOfTrimmed(k: string, v: string)
    requires GoodName(k) && (v != [] ==> !IsSpace(v[|v| - 1]))
    ensures Pair(k + "=" + v) == Some((k, Trim(v)))
  {
    hide Trim;
    var p := k + "=" + v;
    assert p == k + ['='] + v;
    assert p[0] == k[0] && p[|p| - 1] == (if v == [] then '=' else v[|v| - 1]);
    assert Trim(p) == p && Trim(k) == k;
    IndexIs(k, '=', v);
    assert p[..|k|] == k && p[|k| + 1..] == v;
  }

  lemma SpaceBefore(part: string)
    ensures Pair(" " + part) == Pair(part)
  {
    TrimLeftPad(' ', part);
  }

  // ----- the whole string -----

  function AddPart(jar: Jar, part: string): Jar {
    var pair := Pair(part);
    if pair == None then jar
    else
      var (k, v) := pair.value;
      Jar(if k in jar.vals then jar.keys else jar.keys + [k], jar.vals[k := v])
  }

  function ReadParts(parts: seq<string>): Jar {
    if parts == [] then Jar([], map[]) else AddPart(ReadParts(parts[..|parts| - 1]), parts[|parts| - 1])
  }

  /** `parseCookie`. */
  function Parse(s: string): Jar {
    ReadParts(Split(s, ';'))
  }

  /** Each name once, and every name fit to be written. */
  ghost predicate WellFormed(jar: Jar) {
    && (forall i, j :: 0 <= i < j < |jar.keys| ==> jar.keys[i] != jar.keys[j])
    && (forall k :: k in jar.keys <==> k in jar.vals)
    && forall k :: k in jar.vals ==> GoodName(k) && ';' !in jar.vals[k]
  }

  ghost predicate ValuesTrimmed(jar: Jar) {
    forall k :: k in jar.vals ==> Trimmed(jar.vals[k])
  }

  function PartAt(jar: Jar, i: nat): string
    requires i < |jar.keys| && forall k :: k in jar.keys ==> k in jar.vals
  {
    jar.keys[i] + "=" + jar.vals[jar.keys[i]]
  }

  function Parts(jar: Jar): (parts: seq<string>)
    requires forall k :: k in jar.keys ==> k in jar.vals
    ensures |parts| == |jar.keys| && forall i :: 0 <= i < |parts| ==> parts[i] == PartAt(jar, i)
  {
    seq(|jar.keys|, i requires 0 <= i < |jar.keys| => PartAt(jar, i))
  }

  /** `buildCookie`. */
  function Build(jar: Jar): string
    requires forall k :: k in jar.keys ==> k in jar.vals
  {
    Join(Parts(jar))
  }

  /** The first n names with their values trimmed. */
  function ReadBack(jar: Jar, n: nat): (r: Jar)
    requires n <= |jar.keys| && forall k :: k in jar.keys ==> k in jar.vals
    ensures r.keys == jar.keys[..n]
    ensures forall k :: k in r.vals <==> k in jar.keys[..n]
    ensures forall k :: k in r.vals ==> r.vals[k] == Trim(jar.vals[k])
  {
    Jar(jar.keys[..n], map k | k in jar.keys[..n] :: Trim(jar.vals[k]))
  }

  lemma AddPartKeeps(jar: Jar, part: string)
    requires WellFormed(jar) && ValuesTrimmed(jar) && ';' !in part
    ensures WellFormed(AddPart(jar, part)) && ValuesTrimmed(AddPart(jar, part))
  {
    if Pair(part).Some? {
      PairIsGood(part);
      hide Pair, GoodName, Trimmed;
      var (k, v) := Pair(part).value;
      assert k !in jar.vals ==> k !in jar.keys;
    }
  }

  lemma {:induction false} ReadPartsAreGood(parts: seq<string>)
    requires forall p :: p in parts ==> ';' !in p
    ensures WellFormed(ReadParts(parts)) && ValuesTrimmed(ReadParts(parts))
  {
    if parts != [] {
      ReadPartsAreGood(parts[..|parts| - 1]);
      AddPartKeeps(ReadParts(parts[..|parts| - 1]), parts[|parts| - 1]);
    }
  }

  /** Whatever is read can be written. */
  lemma ParseIsGood(s: string)
    ensures WellFormed(Parse(s)) && ValuesTrimmed(Parse(s))
  {
    ReadPartsAreGood(Split(s, ';'));
  }

  lemma NewName(jar: Jar, n: nat)
    requires WellFormed(jar) && n < |jar.keys|
    ensures jar.keys[n] in jar.vals && jar.keys[n] !in jar.keys[..n]
  {
    assert jar.keys[n] in jar.keys;
  }

  lemma ReadBackVals(jar: Jar, n: nat)
    requires (forall k :: k in jar.keys ==> k in jar.vals) && n < |jar.keys|
    ensures ReadBack(jar, n).vals[jar.keys[n] := Trim(jar.vals[jar.keys[n]])] == ReadBack(jar, n + 1).vals
  {
    hide Trim, ReadBack;
    TakeNext(jar.keys, n);
  }

  lemma ReadBackNext(jar: Jar, n: nat, part: string)
    requires WellFormed(jar) && n < |jar.keys|
    requires Pair(part) == Some((jar.keys[n], Trim(jar.vals[jar.keys[n]])))
    ensures AddPart(ReadBack(jar, n), part) == ReadBack(jar, n + 1)
  {
    hide Pair, Trim, ReadBack;
    NewName(jar, n);
    ReadBackVals(jar, n);
    hide WellFormed;
    TakeNext(jar.keys, n);
  }

  lemma ReadNext(parts: seq<string>, n: nat)
    requires n < |parts|
    ensures ReadParts(parts[..n + 1]) == AddPart(ReadParts(parts[..n]), parts[n])
  {
    assert parts[..n + 1][..n] == parts[..n];
  }

  lemma ReadNothing(jar: Jar, parts: seq<string>)
    requires WellFormed(jar)
    ensures ReadParts(parts[..0]) == ReadBack(jar, 0)
  {
    assert ReadBack(jar, 0).vals == map[];
  }

  lemma SpacedPart(jar: Jar, n: nat)
    requires WellFormed(jar) && n < |jar.keys|
    ensures |Spaced(Parts(jar))| == |jar.keys|
    ensures Pair(Spaced(Parts(jar))[n]) == Some((jar.keys[n], Trim(jar.vals[jar.keys[n]])))
  {
    hide Pair, Trim;
    var k := jar.keys[n];
    PairOf(k, jar.vals[k]);
    SpaceBefore(PartAt(jar, n));
  }

  lemma {:induction false} ReadSpaced(jar: Jar, n: nat)
    requires WellFormed(jar) && n <= |jar.keys|
    ensures ReadParts(Spaced(Parts(jar))[..n]) == ReadBack(jar, n)
  {
    hide Pair, Trim, GoodName, AddPart, ReadParts, ReadBack, Spaced, Parts;
    var spaced := Spaced(Parts(jar));
    if n == 0 {
      ReadNothing(jar, spaced);
    } else {
      ReadSpaced(jar, n - 1);
      ReadNext(spaced, n - 1);
      SpacedPart(jar, n - 1);
      ReadBackNext(jar, n - 1, spaced[n - 1]);
    }
  }

  lemma PartsHaveNoSemicolon(jar: Jar)
    requires WellFormed(jar)
    ensures forall p :: p in Parts(jar) ==> ';' !in p
  {
    forall p | p in Parts(jar)
      ensures ';' !in p
    {
      var i :| 0 <= i < |jar.keys| && Parts(jar)[i] == p;
      assert p == jar.keys[i] + "=" + jar.vals[jar.keys[i]];
    }
  }

  /** What is written is read back with the same names in the same order; the values come back trimmed,
      so exactly trimmed values come back as they were. */
  lemma BuildThenParse(jar: Jar)
    requires WellFormed(jar)
    ensures Parse(Build(jar)) == ReadBack(jar, |jar.keys|)
    ensures Parse(Build(jar)) == jar <==> ValuesTrimmed(jar)
  {
    hide Parse, Build, Parts, Spaced, Split, Join, ReadParts, ReadBack, GoodName, Trim, ValuesTrimmed;
    var n := |jar.keys|;
    if n == 0 {
      NothingWritten(jar);
    } else {
      PartsHaveNoSemicolon(jar);
      SplitJoin(Parts(jar));
      ReadSpaced(jar, n);
      TakeAll(Spaced(Parts(jar)));
      ParseWritten(jar);
    }
    ReadBackIsJar(jar);
  }

  lemma ParseWritten(jar: Jar)
    requires WellFormed(jar) && Split(Join(Parts(jar)), ';') == Spaced(Parts(jar))
    ensures Parse(Build(jar)) == ReadParts(Spaced(Parts(jar)))
  {
  }

  lemma NothingWritten(jar: Jar)
    requires WellFormed(jar) && jar.keys == []
    ensures Parse(Build(jar)) == ReadBack(jar, 0)
  {
    assert Parts(jar) == [] && Build(jar) == "";
    assert Split("", ';') == [""];
    assert [""][..0] == [];
    assert Trim("") == "";
    assert ReadParts([""]) == AddPart(ReadParts([]), "");
    assert ReadBack(jar, 0).vals == map[];
  }

  lemma ReadBackIsJar(jar: Jar)
    requires WellFormed(jar)
    ensures ReadBack(jar, |jar.keys|) == jar <==> ValuesTrimmed(jar)
  {
    hide Trim, Trimmed, GoodName;
    TakeAll(jar.keys);
    var r := ReadBack(jar, |jar.keys|);
    if ValuesTrimmed(jar) {
      assert r.vals == jar.vals;
    } else {
      var k :| k in jar.vals && !Trimmed(jar.vals[k]);
      assert Trimmed(r.vals[k]);
    }
  }

  /** Reading and writing once makes the string stable. */
  lemma ParseThenBuild(s: string)
    ensures WellFormed(Parse(s)) && Parse(Build(Parse(s))) == Parse(s)
    ensures Build(Parse(Build(Parse(s)))) == Build(Parse(s))
  {
    ParseIsGood(s);
    BuildThenParse(Parse(s));
  }

  // ----- the methods -----

  /** The loop of `parseCookie`. */
  method ParseCookie(s: string) returns (keys: seq<string>, vals: map<string, string>)
    ensures Jar(keys, vals) == Parse(s)
  {
    hide Trim, IndexOf, Split;
    keys, vals := [], map[];
    var parts := Split(s, ';');
    for n := 0 to |parts|
      invariant Jar(keys, vals) == ReadParts(parts[..n])
    {
      TakeNext(parts, n);
      DropLast(parts[..n], parts[n]);
      var part := Trim(parts[n]);
      TrimTwice(parts[n]);
      if part == "" {
        continue;
      }
      var i := IndexOf(part, '=');
      if i == None {
        continue;
      }
      var k := Trim(part[..i.value]);
      if k == "" {
        continue;
      }
      if k !in vals {
        keys := keys + [k];
      }
      vals := vals[k := Trim(part[i.value + 1..])];
    }
    TakeAll(parts);
  }

  lemma TrimTwice(s: string)
    ensures Trim(Trim(s)) == Trim(s)
  {
  }

  /** The loop of `buildCookie`. */
  method BuildCookie(keys: seq<string>, vals: map<string, string>) returns (s: string)
    requires forall k :: k in keys ==> k in vals
    ensures s == Build(Jar(keys, vals))
  {
    var parts: seq<string> := [];
    for i := 0 to |keys|
      invariant |parts| == i && forall j :: 0 <= j < i ==> parts[j] == keys[j] + "=" + vals[keys[j]]
    {
      parts := parts + [keys[i] + "=" + vals[keys[i]]];
    }
    assert parts == Parts(Jar(keys, vals));
    s := Join(parts);
  }

  // ----- updates from the service -----

  const UPDATED_NAMES: set<string> := {"__puus", "__pus"}

  /** A received cookie that is taken over. */
  predicate Relevant(name: string, value: string) {
    name in UPDATED_NAMES && value != ""
  }

  function Incoming(received: seq<(string, string)>): map<string, string> {
    if received == [] then map[]
    else
      var (name, value) := received[|received| - 1];
      var before := Incoming(received[..|received| - 1]);
      if Relevant(name, value) then before[name := value] else before
  }

  /** The library cuts a Set-Cookie line at the first semicolon. */
  ghost predicate Received(received: seq<(string, string)>) {
    forall i :: 0 <= i < |received| ==> ';' !in received[i].1
  }

  ghost predicate IsUpdate(incoming: map<string, string>) {
    forall name :: name in incoming ==> name in UPDATED_NAMES && incoming[name] != "" && ';' !in incoming[name]
  }

  lemma {:induction false} IncomingIsUpdate(received: seq<(string, string)>)
    requires Received(received)
    ensures IsUpdate(Incoming(received))
  {
    if received != [] {
      IncomingIsUpdate(received[..|received| - 1]);
      assert received[|received| - 1] in received;
    }
  }

  /** Cookie i is one of the two that are taken over, has a value, and is the last of its name that has. */
  ghost predicate LastFor(received: seq<(string, string)>, i: nat)
    requires i < |received|
  {
    && (received[i].0 == "__puus" || received[i].0 == "__pus") && received[i].1 != ""
    && forall j :: i < j < |received| && received[j].0 == received[i].0 ==> received[j].1 == ""
  }

  /** What is taken over is exactly the last cookie of each of the two names that has a value. */
  lemma {:induction false} IncomingExactly(received: seq<(string, string)>)
    ensures forall i: nat :: i < |received| && LastFor(received, i) ==>
              received[i].0 in Incoming(received) && Incoming(received)[received[i].0] == received[i].1
    ensures forall name :: name in Incoming(received) ==>
              exists i: nat :: i < |received| && LastFor(received, i) && received[i] == (name, Incoming(received)[name])
  {
    if received != [] {
      var init, n := received[..|received| - 1], |received| - 1;
      IncomingExactly(init);
      var (name, value) := received[n];
      assert LastFor(received, n) <==> Relevant(name, value);
      forall i: nat | i < n
        ensures LastFor(received, i) <==> LastFor(init, i) && !(init[i].0 == name && Relevant(name, value))
      {
      }
      forall k | k in Incoming(received)
        ensures exists i: nat :: i < |received| && LastFor(received, i) && received[i] == (k, Incoming(received)[k])
      {
        if Relevant(name, value) && k == name {
          assert received[n] == (k, value);
        } else {
          var i: nat :| i < n && LastFor(init, i) && init[i] == (k, Incoming(init)[k]);
          assert received[i] == init[i];
        }
      }
    }
  }

  ghost predicate Changes(jar: Jar, incoming: map<string, string>) {
    exists name :: name in incoming && !(name in jar.vals && jar.vals[name] == incoming[name])
  }

  /** Every other cookie keeps its value and all keep their order; new names go to the end. */
  ghost predicate Absorbed(before: Jar, incoming: map<string, string>, after: Jar) {
    && before.keys <= after.keys && after.vals == before.vals + incoming && WellFormed(after)
  }

  lemma NamesAreGood()
    ensures forall name :: name in UPDATED_NAMES ==> GoodName(name)
  {
  }

  /** One step of the loop: a name that is new or whose value differs. */
  lemma AbsorbOne(before: Jar, jar: Jar, done: map<string, string>, name: string, value: string)
    requires Absorbed(before, done, jar) && name in UPDATED_NAMES && ';' !in value
    ensures Absorbed(before, done[name := value], Jar(if name in jar.vals then jar.keys else jar.keys + [name], jar.vals[name := value]))
    ensures name in jar.vals && jar.vals[name] == value ==> jar.vals[name := value] == jar.vals
  {
    NamesAreGood();
    hide GoodName;
    assert before.vals + done[name := value] == (before.vals + done)[name := value];
  }

  lemma AbsorbNone(before: Jar)
    requires WellFormed(before)
    ensures Absorbed(before, map[], before)
  {
    assert before.vals + map[] == before.vals;
  }

  /** The loop over the incoming cookies, in whatever order they come. */
  method Merge(keys0: seq<string>, vals0: map<string, string>, incoming: map<string, string>)
    returns (keys: seq<string>, vals: map<string, string>, changed: bool)
    requires WellFormed(Jar(keys0, vals0)) && IsUpdate(incoming)
    ensures Absorbed(Jar(keys0, vals0), incoming, Jar(keys, vals))
    ensures changed <==> Changes(Jar(keys0, vals0), incoming)
  {
    hide WellFormed, Absorbed;
    keys, vals, changed := keys0, vals0, false;
    ghost var before := Jar(keys0, vals0);
    ghost var done: map<string, string> := map[];
    AbsorbNone(before);
    var rest := incoming.Keys;
    while rest != {}
      invariant rest <= incoming.Keys && done.Keys == incoming.Keys - rest
      invariant forall name :: name in done ==> done[name] == incoming[name]
      invariant Absorbed(before, done, Jar(keys, vals))
      invariant forall name :: name in rest ==>
                  (name in vals <==> name in vals0) && (name in vals && name in vals0 ==> vals[name] == vals0[name])
      invariant changed <==> exists name :: name in done && !(name in vals0 && vals0[name] == incoming[name])
      decreases rest
    {
      var name :| name in rest;
      var val := incoming[name];
      AbsorbOne(before, Jar(keys, vals), done, name, val);
      rest, done := rest - {name}, done[name := val];
      if !(name in vals && vals[name] == val) {
        if name !in vals {
          keys := keys + [name];
        }
        vals := vals[name := val];
        changed := true;
      }
    }
    assert done == incoming;
  }

  class Session {
    var cookie: string
    var lastCookieChanged: bool

    constructor (cookie: string)
      ensures this.cookie == cookie && !lastCookieChanged
    {
      this.cookie, lastCookieChanged := cookie, false;
    }

    /** `absorbSetCookie`. */
    method AbsorbSetCookie(received: seq<(string, string)>) returns (persisted: Option<string>)
      requires Received(received)
      modifies this
      ensures !Changes(Parse(old(cookie)), Incoming(received)) ==>
                cookie == old(cookie) && lastCookieChanged == old(lastCookieChanged) && persisted == None
      ensures Changes(Parse(old(cookie)), Incoming(received)) ==>
                persisted == Some(cookie) && lastCookieChanged && Written(Parse(old(cookie)), Incoming(received), cookie)
      ensures TakenOver(received, old(cookie), cookie)
    {
      hide Parse, Incoming, Absorbed, WellFormed, Trim, GoodName, TakenOver;
      IncomingIsUpdate(received);
      NothingChanged(received, cookie);
      persisted := None;
      var incoming := CollectIncoming(received);
      if incoming == map[] {
        return;
      }
      var keys, vals := ParseCookie(cookie);
      ParseIsGood(cookie);
      var changed;
      ghost var before := Jar(keys, vals);
      keys, vals, changed := Merge(keys, vals, incoming);
      if !changed {
        return;
      }
      AbsorbedIsWritten(before, incoming, Jar(keys, vals));
      ghost var was := cookie;
      cookie := BuildCookie(keys, vals);
      UpdateTakesOver(received, was, cookie);
      lastCookieChanged, persisted := true, Some(cookie);
    }
  }

  /** The cookies that are taken over. */
  method CollectIncoming(received: seq<(string, string)>) returns (incoming: map<string, string>)
    ensures incoming == Incoming(received)
  {
    incoming := map[];
    for i := 0 to |received|
      invariant incoming == Incoming(received[..i])
    {
      TakeNext(received, i);
      DropLast(received[..i], received[i]);
      var (name, value) := received[i];
      if Relevant(name, value) {
        incoming := incoming[name := value];
      }
    }
    TakeAll(received);
  }

  /** The string is one that the update can have left. */
  ghost predicate Written(before: Jar, incoming: map<string, string>, cookie: string) {
    exists jar :: Absorbed(before, incoming, jar) && (forall k :: k in jar.keys ==> k in jar.vals) && cookie == Build(jar)
  }

  lemma AbsorbedIsWritten(before: Jar, incoming: map<string, string>, jar: Jar)
    requires Absorbed(before, incoming, jar)
    ensures (forall k :: k in jar.keys ==> k in jar.vals) && Written(before, incoming, Build(jar))
  {
  }

  /** After an update every other cookie reads as before, in the same order, and the updated ones read
      as the new values, trimmed. */
  lemma UpdateReadsBack(cookie: string, incoming: map<string, string>, after: string)
    requires IsUpdate(incoming) && Written(Parse(cookie), incoming, after)
    ensures Parse(cookie).keys <= Parse(after).keys
    ensures forall k :: k in Parse(after).vals <==> k in Parse(cookie).vals || k in incoming
    ensures forall k :: k in Parse(after).vals ==>
              Parse(after).vals[k] == if k in incoming then Trim(incoming[k]) else Parse(cookie).vals[k]
  {
    var before := Parse(cookie);
    ParseIsGood(cookie);
    var jar :| Absorbed(before, incoming, jar) && (forall k :: k in jar.keys ==> k in jar.vals) && after == Build(jar);
    BuildThenParse(jar);
    hide Parse, Build, Trim, GoodName;
    TakeAll(jar.keys);
    var r := Parse(after);
    forall k | k in r.vals
      ensures r.vals[k] == if k in incoming then Trim(incoming[k]) else before.vals[k]
    {
      assert k !in incoming ==> Trimmed(before.vals[k]);
    }
  }

  /** A second update with the same cookies finds nothing to change exactly when their values are
      trimmed, whether or not the first one changed anything. */
  lemma SecondUpdate(cookie: string, incoming: map<string, string>, after: string)
    requires IsUpdate(incoming)
    requires if Changes(Parse(cookie), incoming) then Written(Parse(cookie), incoming, after) else after == cookie
    ensures !Changes(Parse(after), incoming) <==> forall name :: name in incoming ==> Trimmed(incoming[name])
  {
    hide Parse, Trim, Trimmed, GoodName, WellFormed, Written, IsUpdate;
    ParseIsGood(after);
    if Changes(Parse(cookie), incoming) {
      UpdateReadsBack(cookie, incoming, after);
      if name :| name in incoming && !Trimmed(incoming[name]) {
        assert Trimmed(Parse(after).vals[name]);
      }
    } else {
      forall name | name in incoming
        ensures Trimmed(incoming[name])
      {
        assert Parse(cookie).vals[name] == incoming[name];
      }
    }
  }

  /** Of each of the two names the last value received is read afterwards, trimmed; and all other cookies
      read as before, in the same order. */
  ghost predicate TakenOver(received: seq<(string, string)>, before: string, after: string) {
    && (forall i: nat :: i < |received| && LastFor(received, i) ==>
          received[i].0 in Parse(after).vals && Parse(after).vals[received[i].0] == Trim(received[i].1))
    && (forall k :: k in Parse(before).vals && k != "__puus" && k != "__pus" ==>
          k in Parse(after).vals && Parse(after).vals[k] == Parse(before).vals[k])
    && (forall k :: k in Parse(after).vals && k != "__puus" && k != "__pus" ==> k in Parse(before).vals)
    && Parse(before).keys <= Parse(after).keys
  }

  lemma NothingChanged(received: seq<(string, string)>, cookie: string)
    ensures !Changes(Parse(cookie), Incoming(received)) ==> TakenOver(received, cookie, cookie)
  {
    hide Parse, Trim, Incoming, GoodName, WellFormed;
    ParseIsGood(cookie);
    IncomingExactly(received);
    if !Changes(Parse(cookie), Incoming(received)) {
      forall i: nat | i < |received| && LastFor(received, i)
        ensures received[i].0 in Parse(cookie).vals && Parse(cookie).vals[received[i].0] == Trim(received[i].1)
      {
        assert received[i].0 in Incoming(received);
        assert Trimmed(Parse(cookie).vals[received[i].0]);
      }
    }
  }

  lemma UpdateTakesOver(received: seq<(string, string)>, cookie: string, after: string)
    requires IsUpdate(Incoming(received)) && Written(Parse(cookie), Incoming(received), after)
    ensures TakenOver(received, cookie, after)
  {
    hide Parse, Trim, Incoming, Written;
    UpdateReadsBack(cookie, Incoming(received), after);
    IncomingExactly(received);
  }
}
