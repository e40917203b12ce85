/**
 * The recursive group search of the LDAP connection (packages/lib-ldap/src/ldap-connection.ts).
 *
 * A directory answers each member value with a list of group entries or with an error.  The search
 * walks from a user value to the groups that list it, then to the groups listing those groups, and
 * so on; all the nested calls share one mutable set of the names already seen.
 */
module LdapGroups {
  import opened Wrappers
  import Text

  datatype Value = One(text: string) | Many(texts: seq<string>)

  datatype Entry = Entry(dn: string, attrs: map<string, Value>)

  datatype Answer = Found(entries: seq<Entry>) | Failed

  /** What the server answers for each member value; an unlisted value has no groups. */
  type Directory = map<string, Answer>

  /** `nameAttrs` is the split `ldapGroupAttributeNameSearch`, empty when it is unset. */
  datatype Config = Config(groupBase: string, nameAttrs: seq<string>, parentAttr: string, recursive: bool)

  /** One property per retrieved attribute, on top of `name` and `dn`. */
  type GroupData = map<string, Value>

  // ---------------------------------------------------------------- reading an entry

  predicate IsDn(attr: string) {
    attr == "dn" || attr == "DN" || attr == "Dn" || attr == "dN"
  }

  function LdapValue(e: Entry, attr: string): string {
    if IsDn(attr) then e.dn
    else if attr !in e.attrs then ""
    else match e.attrs[attr]
      case One(text) => text
      case Many(texts) => Text.Join(texts, ';')
  }

  function NameAttr(c: Config): string {
    if |c.nameAttrs| == 0 || c.nameAttrs[0] == "" then "cn" else c.nameAttrs[0]
  }

  function SearchAttrs(c: Config): seq<string> {
    (if |c.nameAttrs| == 0 then ["cn"] else c.nameAttrs)
    + (if c.recursive && c.parentAttr != "" then [c.parentAttr] else [])
  }

  function Name(c: Config, e: Entry): string {
    LdapValue(e, NameAttr(c))
  }

  /** The member value under which the parents of a group list it. */
  function Parent(c: Config, e: Entry): string {
    LdapValue(e, c.parentAttr)
  }

  function RawAttrs(e: Entry): map<string, Value> {
    e.attrs["dn" := One(e.dn)]
  }

  function GroupDataOf(c: Config, e: Entry): GroupData {
    map["name" := One(Name(c, e)), "dn" := One(e.dn)]
    + map a | a in SearchAttrs(c) && a in RawAttrs(e) && RawAttrs(e)[a] != One("") :: RawAttrs(e)[a]
  }

  // ---------------------------------------------------------------- the group graph

  function Find(dir: Directory, value: string): Answer {
    if value in dir then dir[value] else Found([])
  }

  /** `e` is a named group that directly lists `value`. */
  ghost predicate Lists(dir: Directory, c: Config, value: string, e: Entry) {
    c.groupBase != "" && value in dir && dir[value].Found? && e in dir[value].entries && Name(c, e) != ""
  }

  /** The groups listing `e` itself are searched. */
  predicate HasParent(c: Config, e: Entry) {
    c.recursive && c.parentAttr != "" && Parent(c, e) != ""
  }

  ghost predicate Chain(dir: Directory, c: Config, value: string, path: seq<Entry>)
    decreases |path|
  {
    && |path| > 0
    && Lists(dir, c, value, path[0])
    && (|path| == 1
        || (c.recursive && c.parentAttr != "" && LdapValue(path[0], c.parentAttr) != ""
            && Chain(dir, c, LdapValue(path[0], c.parentAttr), path[1..])))
  }

  /** `e` contains the value through any number of nested groups. */
  ghost predicate Reaches(dir: Directory, c: Config, value: string, e: Entry) {
    exists path :: Chain(dir, c, value, path) && path[|path| - 1] == e
  }

  function AllNames(dir: Directory, c: Config): set<string> {
    set v, e | v in dir && dir[v].Found? && e in dir[v].entries :: Name(c, e)
  }

  ghost function DirectNames(dir: Directory, c: Config, value: string): set<string> {
    set n | n in AllNames(dir, c) && exists e :: Lists(dir, c, value, e) && Name(c, e) == n
  }

  ghost function ReachableNames(dir: Directory, c: Config, value: string): set<string> {
    set n | n in AllNames(dir, c) && exists e :: Reaches(dir, c, value, e) && Name(c, e) == n
  }

  /** Among the groups `value` reaches a name identifies the parent value, and no parent value is also a group name. */
  ghost predicate Clean(dir: Directory, c: Config, value: string) {
    && (forall e, e' :: Reaches(dir, c, value, e) && Reaches(dir, c, value, e') && Name(c, e) == Name(c, e') ==>
          Parent(c, e) == Parent(c, e'))
    && (forall e, e' :: Reaches(dir, c, value, e) && Reaches(dir, c, value, e') && HasParent(c, e) ==>
          Parent(c, e) != Name(c, e'))
  }

  /** No followed parent value is one of the names. */
  ghost predicate Apart(dir: Directory, c: Config, value: string, names: set<string>) {
    forall e :: Reaches(dir, c, value, e) && HasParent(c, e) ==> Parent(c, e) !in names
  }

  /** Every group that lists one of the reached groups named in `inner` has its name in `outer`. */
  ghost predicate Closed(dir: Directory, c: Config, value: string, inner: set<string>, outer: set<string>) {
    forall e :: Reaches(dir, c, value, e) && Name(c, e) in inner && HasParent(c, e) ==>
      forall e' :: Lists(dir, c, Parent(c, e), e') ==> Name(c, e') in outer
  }

  lemma NamedInDirectory(dir: Directory, c: Config, value: string, e: Entry)
    requires Lists(dir, c, value, e)
    ensures Name(c, e) in AllNames(dir, c)
  {
  }

  lemma ListedIsReached(dir: Directory, c: Config, value: string, e: Entry)
    requires Lists(dir, c, value, e)
    ensures Reaches(dir, c, value, e)
    ensures Name(c, e) in AllNames(dir, c)
  {
    assert Chain(dir, c, value, [e]);
  }

  lemma ReachThroughParent(dir: Directory, c: Config, value: string, e: Entry, above: Entry)
    requires Lists(dir, c, value, e) && HasParent(c, e)
    requires Reaches(dir, c, Parent(c, e), above)
    ensures Reaches(dir, c, value, above)
  {
    var path :| Chain(dir, c, Parent(c, e), path) && path[|path| - 1] == above;
    assert ([e] + path)[1..] == path;
    assert Chain(dir, c, value, [e] + path);
  }

  lemma CleanFromParent(dir: Directory, c: Config, value: string, e: Entry, seen: set<string>)
    requires Clean(dir, c, value) && Apart(dir, c, value, seen) && Lists(dir, c, value, e) && HasParent(c, e)
    ensures Clean(dir, c, Parent(c, e)) && Apart(dir, c, Parent(c, e), seen)
  {
    ListedIsReached(dir, c, value, e);
    forall above | Reaches(dir, c, Parent(c, e), above)
      ensures Reaches(dir, c, value, above)
    {
      ReachThroughParent(dir, c, value, e, above);
    }
  }

  /** A longer chain is a chain and one step up from its last group. */
  lemma {:induction false} ChainWithoutLast(dir: Directory, c: Config, value: string, path: seq<Entry>)
    requires |path| > 1 && Chain(dir, c, value, path)
    ensures Chain(dir, c, value, path[..|path| - 1])
    ensures HasParent(c, path[|path| - 2]) && Lists(dir, c, Parent(c, path[|path| - 2]), path[|path| - 1])
    decreases |path|
  {
    if |path| > 2 {
      ChainWithoutLast(dir, c, Parent(c, path[0]), path[1..]);
      assert path[..|path| - 1][1..] == path[1..][..|path[1..]| - 1];
    }
  }

  lemma {:induction false} ChainStaysInside(dir: Directory, c: Config, value: string, path: seq<Entry>,
                                            names: set<string>)
    requires Chain(dir, c, value, path)
    requires Recorded(dir, c, value, names) && Closed(dir, c, value, names, names)
    ensures Name(c, path[|path| - 1]) in names
    decreases |path|
  {
    if |path| == 1 {
      ListedIsReached(dir, c, value, path[0]);
      assert Name(c, path[0]) in DirectNames(dir, c, value);
    } else {
      var below := path[..|path| - 1];
      ChainWithoutLast(dir, c, value, path);
      ChainStaysInside(dir, c, value, below, names);
      assert Reaches(dir, c, value, below[|below| - 1]);
    }
  }

  /** A set of names that records the direct groups and is closed holds every reachable group. */
  lemma ClosedHoldsAll(dir: Directory, c: Config, value: string, names: set<string>)
    requires Recorded(dir, c, value, names)
    requires Closed(dir, c, value, names, names)
    ensures ReachableNames(dir, c, value) <= names
  {
    forall e | Reaches(dir, c, value, e)
      ensures Name(c, e) in names
    {
      var path :| Chain(dir, c, value, path) && path[|path| - 1] == e;
      ChainStaysInside(dir, c, value, path, names);
    }
  }

  // ---------------------------------------------------------------- groups nested by their own name

  /** The parent value of every group is its own name: nested groups are listed by name. */
  ghost predicate NestedByName(c: Config) {
    c.recursive && c.parentAttr != ""
    && (c.parentAttr == NameAttr(c) || (IsDn(c.parentAttr) && IsDn(NameAttr(c))))
  }

  /** Every group listing the name of a direct group is itself a direct group. */
  ghost predicate NoOuterGroup(dir: Directory, c: Config, value: string) {
    forall e, above :: Lists(dir, c, value, e) && Lists(dir, c, Name(c, e), above) ==>
      Name(c, above) in DirectNames(dir, c, value)
  }

  /**
   * When groups are nested by name the search stops at the direct groups, because a group's name is
   * recorded before its parent value is compared with the recorded names.  The direct groups are all
   * the reachable groups exactly when no direct group lies in an outer group.
   */
  lemma NestedByNameExact(dir: Directory, c: Config, value: string)
    requires NestedByName(c)
    ensures DirectNames(dir, c, value) == ReachableNames(dir, c, value) <==> NoOuterGroup(dir, c, value)
  {
    DirectIsReachable(dir, c, value);
    if NoOuterGroup(dir, c, value) {
      NoOuterGroupIsClosed(dir, c, value);
      ClosedHoldsAll(dir, c, value, DirectNames(dir, c, value));
    }
    forall e, above | Lists(dir, c, value, e) && Lists(dir, c, Name(c, e), above)
      ensures Name(c, above) in ReachableNames(dir, c, value)
    {
      ListedIsReached(dir, c, Name(c, e), above);
      ReachThroughParent(dir, c, value, e, above);
    }
  }

  lemma DirectIsReachable(dir: Directory, c: Config, value: string)
    ensures DirectNames(dir, c, value) <= ReachableNames(dir, c, value)
  {
    forall e | Lists(dir, c, value, e)
      ensures Name(c, e) in ReachableNames(dir, c, value)
    {
      ListedIsReached(dir, c, value, e);
    }
  }

  lemma NoOuterGroupIsClosed(dir: Directory, c: Config, value: string)
    requires NestedByName(c) && NoOuterGroup(dir, c, value)
    ensures Closed(dir, c, value, DirectNames(dir, c, value), DirectNames(dir, c, value))
  {
    var direct := DirectNames(dir, c, value);
    forall r, above | Name(c, r) in direct && Lists(dir, c, Name(c, r), above)
      ensures Name(c, above) in direct
    {
      var e :| Lists(dir, c, value, e) && Name(c, e) == Name(c, r);
    }
  }

  /** A directory of two nested groups on which the search by name misses the outer one. */
  lemma NestedByNameMisses()
    ensures var c := Config("ou=groups", ["cn"], "cn", true);
            var a := Entry("cn=a", map["cn" := One("a")]);
            var b := Entry("cn=b", map["cn" := One("b")]);
            var dir := map["u" := Found([a]), "a" := Found([b])];
            DirectNames(dir, c, "u") == {"a"} && "b" in ReachableNames(dir, c, "u")
  {
    var c := Config("ou=groups", ["cn"], "cn", true);
    var a := Entry("cn=a", map["cn" := One("a")]);
    var b := Entry("cn=b", map["cn" := One("b")]);
    var dir: Directory := map["u" := Found([a]), "a" := Found([b])];
    assert Lists(dir, c, "u", a) && Lists(dir, c, "a", b);
    ListedIsReached(dir, c, "u", a);
    ListedIsReached(dir, c, "a", b);
    ReachThroughParent(dir, c, "u", a, b);
  }

  // ---------------------------------------------------------------- the search

  /** What the search has collected: data of reached groups, keyed by name. */
  ghost predicate Collected(dir: Directory, c: Config, value: string, groups: map<string, GroupData>) {
    forall n {:trigger groups[n]} :: n in groups ==> Shows(dir, c, value, n, groups[n])
  }

  /** `data` describes a reached group named `n`. */
  ghost predicate Shows(dir: Directory, c: Config, value: string, n: string, data: GroupData) {
    exists e :: Reaches(dir, c, value, e) && Name(c, e) == n && data == GroupDataOf(c, e)
  }

  /** The names of the groups that directly list the value are all in the set. */
  ghost predicate Recorded(dir: Directory, c: Config, value: string, names: set<string>) {
    DirectNames(dir, c, value) <= names
  }

  lemma {:induction false} ReachedIsNamed(dir: Directory, c: Config, value: string, path: seq<Entry>)
    requires Chain(dir, c, value, path)
    ensures Name(c, path[|path| - 1]) in AllNames(dir, c)
    decreases |path|
  {
    if |path| == 1 {
      ListedIsReached(dir, c, value, path[0]);
    } else {
      ReachedIsNamed(dir, c, Parent(c, path[0]), path[1..]);
    }
  }

  lemma CollectedIsReachable(dir: Directory, c: Config, value: string, groups: map<string, GroupData>)
    requires Collected(dir, c, value, groups)
    ensures groups.Keys <= ReachableNames(dir, c, value)
  {
    forall n | n in groups
      ensures n in ReachableNames(dir, c, value)
    {
      assert Shows(dir, c, value, n, groups[n]);
      var e :| Reaches(dir, c, value, e) && Name(c, e) == n && groups[n] == GroupDataOf(c, e);
      var path :| Chain(dir, c, value, path) && path[|path| - 1] == e;
      ReachedIsNamed(dir, c, value, path);
    }
  }

  lemma ApartFromCollected(dir: Directory, c: Config, value: string, groups: map<string, GroupData>)
    requires Clean(dir, c, value) && Collected(dir, c, value, groups)
    ensures Apart(dir, c, value, groups.Keys)
  {
    forall e | Reaches(dir, c, value, e) && HasParent(c, e)
      ensures Parent(c, e) !in groups
    {
    }
  }

  /**
   * What one call keeps while it works, `seen` being the names recorded before it: it records exactly
   * the names it returns, returns reached groups only and, on a clean directory, leaves unrecorded
   * nothing that lists a returned group; when groups nest by name it returns direct groups only.
   */
  ghost predicate Progress(dir: Directory, c: Config, value: string, seen: set<string>,
                           groups: map<string, GroupData>, names: set<string>) {
    && names == seen + groups.Keys
    && groups.Keys !! seen
    && Collected(dir, c, value, groups)
    && (Clean(dir, c, value) && Apart(dir, c, value, seen) ==> Closed(dir, c, value, groups.Keys, names))
    && (NestedByName(c) ==> groups.Keys <= DirectNames(dir, c, value))
  }

  /** A listed entry is recorded; its parents, when they must be searched, can be searched cleanly. */
  lemma EntryRecorded(dir: Directory, c: Config, value: string, e: Entry, seen: set<string>,
                      before: map<string, GroupData>, names: set<string>)
    requires Lists(dir, c, value, e) && Progress(dir, c, value, seen, before, names) && Name(c, e) !in names
    ensures var own := before[Name(c, e) := GroupDataOf(c, e)];
            && own.Keys == before.Keys + {Name(c, e)}
            && names + {Name(c, e)} == seen + own.Keys
            && Collected(dir, c, value, own)
            && (Clean(dir, c, value) && Apart(dir, c, value, seen) ==>
                  Apart(dir, c, value, names + {Name(c, e)}))
    ensures NestedByName(c) ==> Name(c, e) in DirectNames(dir, c, value)
  {
    ListedIsReached(dir, c, value, e);
    var own := before[Name(c, e) := GroupDataOf(c, e)];
    assert own.Keys == before.Keys + {Name(c, e)};
    assert names + {Name(c, e)} == seen + own.Keys;
    if Clean(dir, c, value) && Apart(dir, c, value, seen) {
      ApartFromCollected(dir, c, value, own);
    }
  }

  lemma ProgressAlone(dir: Directory, c: Config, value: string, e: Entry, seen: set<string>,
                      before: map<string, GroupData>, names: set<string>)
    requires Lists(dir, c, value, e) && Progress(dir, c, value, seen, before, names) && Name(c, e) !in names
    requires HasParent(c, e) ==> Parent(c, e) in names + {Name(c, e)}
    ensures Progress(dir, c, value, seen, before[Name(c, e) := GroupDataOf(c, e)], names + {Name(c, e)})
  {
    EntryRecorded(dir, c, value, e, seen, before, names);
    ListedIsReached(dir, c, value, e);
    if Clean(dir, c, value) && Apart(dir, c, value, seen) {
      assert !HasParent(c, e);
      forall r | Reaches(dir, c, value, r) && Name(c, r) == Name(c, e)
        ensures !HasParent(c, r)
      {
        assert Parent(c, r) == Parent(c, e);
      }
    }
  }

  /** The groups added for one entry and, through its parent value, above it. */
  lemma ProgressAbove(dir: Directory, c: Config, value: string, e: Entry, seen: set<string>,
                      before: map<string, GroupData>, names: set<string>,
                      above: map<string, GroupData>, after: set<string>)
    requires Lists(dir, c, value, e) && Progress(dir, c, value, seen, before, names) && Name(c, e) !in names
    requires HasParent(c, e) && Parent(c, e) !in names + {Name(c, e)}
    requires Progress(dir, c, Parent(c, e), names + {Name(c, e)}, above, after)
    requires Recorded(dir, c, Parent(c, e), after)
    ensures var own := before[Name(c, e) := GroupDataOf(c, e)];
            Progress(dir, c, value, seen, own + above, after)
  {
    EntryRecorded(dir, c, value, e, seen, before, names);
    var own := before[Name(c, e) := GroupDataOf(c, e)];
    Merged(own, above, seen, names + {Name(c, e)}, after);
    CollectedThroughParent(dir, c, value, e, own, above);
    if Clean(dir, c, value) && Apart(dir, c, value, seen) {
      ClosedAbove(dir, c, value, e, seen, before, names, above, after);
      assert before.Keys + {Name(c, e)} + above.Keys == (own + above).Keys;
    }
    assert !NestedByName(c);
  }

  lemma ClosedAbove(dir: Directory, c: Config, value: string, e: Entry, seen: set<string>,
                    before: map<string, GroupData>, names: set<string>,
                    above: map<string, GroupData>, after: set<string>)
    requires Lists(dir, c, value, e) && Progress(dir, c, value, seen, before, names) && HasParent(c, e)
    requires Progress(dir, c, Parent(c, e), names + {Name(c, e)}, above, after)
    requires Recorded(dir, c, Parent(c, e), after)
    requires Clean(dir, c, value) && Apart(dir, c, value, seen) && Apart(dir, c, value, names + {Name(c, e)})
    ensures Closed(dir, c, value, before.Keys + {Name(c, e)} + above.Keys, after)
  {
    CleanFromParent(dir, c, value, e, names + {Name(c, e)});
    ListedIsReached(dir, c, value, e);
    ClosedThroughParent(dir, c, value, e, before.Keys, above, after);
  }

  lemma Merged(own: map<string, GroupData>, above: map<string, GroupData>,
               seen: set<string>, names: set<string>, after: set<string>)
    requires names == seen + own.Keys && own.Keys !! seen
    requires after == names + above.Keys && above.Keys !! names
    ensures after == seen + (own + above).Keys && (own + above).Keys !! seen
    ensures (own + above).Keys == own.Keys + above.Keys
  {
    assert (own + above).Keys == own.Keys + above.Keys;
  }

  lemma CollectedThroughParent(dir: Directory, c: Config, value: string, e: Entry,
                               groups: map<string, GroupData>, above: map<string, GroupData>)
    requires Lists(dir, c, value, e) && HasParent(c, e)
    requires Collected(dir, c, value, groups) && Collected(dir, c, Parent(c, e), above)
    ensures Collected(dir, c, value, groups + above)
  {
    forall n | n in groups + above
      ensures Shows(dir, c, value, n, (groups + above)[n])
    {
      if n in above {
        ShowsThroughParent(dir, c, value, e, n, above[n]);
      } else {
        assert (groups + above)[n] == groups[n];
      }
    }
  }

  lemma ShowsThroughParent(dir: Directory, c: Config, value: string, e: Entry, n: string, data: GroupData)
    requires Lists(dir, c, value, e) && HasParent(c, e) && Shows(dir, c, Parent(c, e), n, data)
    ensures Shows(dir, c, value, n, data)
  {
    var r :| Reaches(dir, c, Parent(c, e), r) && Name(c, r) == n && data == GroupDataOf(c, r);
    ReachThroughParent(dir, c, value, e, r);
  }

  /** What lists a group that shares its name with a group above `e` is recorded. */
  lemma RecordedAbove(dir: Directory, c: Config, value: string, e: Entry, above: map<string, GroupData>,
                      names: set<string>, r: Entry, r': Entry)
    requires Clean(dir, c, value) && Lists(dir, c, value, e) && HasParent(c, e)
    requires Closed(dir, c, Parent(c, e), above.Keys, names) && Collected(dir, c, Parent(c, e), above)
    requires Reaches(dir, c, value, r) && HasParent(c, r) && Name(c, r) in above && Lists(dir, c, Parent(c, r), r')
    ensures Name(c, r') in names
  {
    assert Shows(dir, c, Parent(c, e), Name(c, r), above[Name(c, r)]);
    var twin :| Reaches(dir, c, Parent(c, e), twin) && Name(c, twin) == Name(c, r)
                && above[Name(c, r)] == GroupDataOf(c, twin);
    ReachThroughParent(dir, c, value, e, twin);
    assert Parent(c, twin) == Parent(c, r);
  }

  /** What lists a group that shares its name with `e` is recorded. */
  lemma RecordedBeside(dir: Directory, c: Config, value: string, e: Entry, names: set<string>, r: Entry, r': Entry)
    requires Clean(dir, c, value) && Lists(dir, c, value, e) && HasParent(c, e)
    requires Recorded(dir, c, Parent(c, e), names)
    requires Reaches(dir, c, value, r) && Name(c, r) == Name(c, e) && Lists(dir, c, Parent(c, r), r')
    ensures Name(c, r') in names
  {
    ListedIsReached(dir, c, value, e);
    assert Parent(c, r) == Parent(c, e);
    ListedIsReached(dir, c, Parent(c, e), r');
    assert Name(c, r') in DirectNames(dir, c, Parent(c, e));
  }

  lemma ClosedThroughParent(dir: Directory, c: Config, value: string, e: Entry,
                            groups: set<string>, above: map<string, GroupData>, names: set<string>)
    requires Clean(dir, c, value) && Lists(dir, c, value, e) && HasParent(c, e)
    requires Closed(dir, c, value, groups, names)
    requires Recorded(dir, c, Parent(c, e), names) && Closed(dir, c, Parent(c, e), above.Keys, names)
    requires Collected(dir, c, Parent(c, e), above)
    ensures Closed(dir, c, value, groups + {Name(c, e)} + above.Keys, names)
  {
    forall r, r' | Reaches(dir, c, value, r) && HasParent(c, r) && Lists(dir, c, Parent(c, r), r')
                   && Name(c, r) in groups + {Name(c, e)} + above.Keys
      ensures Name(c, r') in names
    {
      if Name(c, r) in above {
        RecordedAbove(dir, c, value, e, above, names, r, r');
      } else if Name(c, r) == Name(c, e) {
        RecordedBeside(dir, c, value, e, names, r, r');
      }
    }
  }

  /** The non-empty names among the entries. */
  function GivenNames(c: Config, entries: seq<Entry>): set<string> {
    (set e | e in entries :: Name(c, e)) - {""}
  }

  lemma GivenOneMore(c: Config, entries: seq<Entry>, i: nat)
    requires i < |entries|
    ensures GivenNames(c, entries[..i + 1]) == GivenNames(c, entries[..i]) + ({Name(c, entries[i])} - {""})
  {
    assert entries[..i + 1] == entries[..i] + [entries[i]];
  }

  lemma GivenIsRecorded(dir: Directory, c: Config, value: string)
    requires Find(dir, value).Found?
    ensures Recorded(dir, c, value, GivenNames(c, Find(dir, value).entries))
  {
  }

  /** The `Set` handed down by reference through the recursive calls. */
  class NameSet {
    var names: set<string>

    constructor ()
      ensures names == {}
    {
      names := {};
    }
  }

  /**
   * `searchGroups` with its shared `dupCheck`: terminates on every directory, and `Progress` says what
   * it returns and records.  It also records every direct group.
   */
  method SearchGroups(dir: Directory, c: Config, value: string, dupCheck: NameSet)
    returns (groups: map<string, GroupData>)
    modifies dupCheck
    ensures Progress(dir, c, value, old(dupCheck.names), groups, dupCheck.names)
    ensures Recorded(dir, c, value, dupCheck.names)
    decreases AllNames(dir, c) - dupCheck.names
  {
    groups := map[];
    if c.groupBase == "" {
      return;
    }
    var answer := Find(dir, value);
    if answer.Failed? {
      return;
    }
    var results := answer.entries;
    ghost var seen := dupCheck.names;
    for i := 0 to |results|
      invariant Progress(dir, c, value, seen, groups, dupCheck.names)
      invariant GivenNames(c, results[..i]) <= dupCheck.names
    {
      var entry := results[i];
      var groupName := Name(c, entry);
      GivenOneMore(c, results, i);
      if groupName != "" && groupName !in dupCheck.names {
        ghost var before, names := groups, dupCheck.names;
        dupCheck.names := dupCheck.names + {groupName};
        groups := groups[groupName := GroupDataOf(c, entry)];
        NamedInDirectory(dir, c, value, entry);
        var parentValue := Parent(c, entry);
        if c.recursive && c.parentAttr != "" && parentValue != "" && parentValue !in dupCheck.names {
          var parentGroups := SearchGroups(dir, c, parentValue, dupCheck);
          groups := groups + parentGroups;
          ProgressAbove(dir, c, value, entry, seen, before, names, parentGroups, dupCheck.names);
        } else {
          ProgressAlone(dir, c, value, entry, seen, before, names);
        }
      }
    }
    assert results[..|results|] == results;
    GivenIsRecorded(dir, c, value);
  }

  /** A search that does not nest reaches the direct groups only. */
  lemma FlatIsDirect(dir: Directory, c: Config, value: string)
    requires !c.recursive || c.parentAttr == ""
    ensures ReachableNames(dir, c, value) == DirectNames(dir, c, value)
  {
    DirectIsReachable(dir, c, value);
    forall e | Reaches(dir, c, value, e)
      ensures Lists(dir, c, value, e)
    {
      var path :| Chain(dir, c, value, path) && path[|path| - 1] == e;
    }
  }

  // ---------------------------------------------------------------- what is read of a group

  /** The attribute is one of those asked for: the naming ones, and the parent one when the search nests. */
  predicate Requested(c: Config, k: string) {
    || (if |c.nameAttrs| == 0 then k == "cn" else k in c.nameAttrs)
    || (c.recursive && c.parentAttr != "" && k == c.parentAttr)
  }

  /** The raw value of a property of the entry, unless it is missing or an empty text. */
  function Property(e: Entry, k: string): (v: Option<Value>) {
    if k == "dn" then if e.dn == "" then None else Some(One(e.dn))
    else if k in e.attrs && e.attrs[k] != One("") then Some(e.attrs[k])
    else None
  }

  /** The data of a group: its name, its DN, and over them the attributes asked for. */
  ghost predicate Describes(c: Config, e: Entry, n: string, data: GroupData) {
    && (forall k :: k in data <==> k == "name" || k == "dn" || (Requested(c, k) && Property(e, k).Some?))
    && (forall k :: k in data ==>
          data[k] == if Requested(c, k) && Property(e, k).Some? then Property(e, k).value
                     else if k == "name" then One(n) else One(e.dn))
  }

  lemma DataDescribes(c: Config, e: Entry)
    ensures Describes(c, e, Name(c, e), GroupDataOf(c, e))
  {
    forall k
      ensures Requested(c, k) <==> k in SearchAttrs(c)
      ensures (k in RawAttrs(e) && RawAttrs(e)[k] != One("")) <==> Property(e, k).Some?
      ensures Property(e, k).Some? ==> RawAttrs(e)[k] == Property(e, k).value
    {
    }
  }

  /** The naming attribute is the first configured, "cn" without one. */
  lemma NameRead(c: Config, e: Entry)
    ensures c.nameAttrs == [] || c.nameAttrs[0] == "" ==> Name(c, e) == LdapValue(e, "cn")
    ensures c.nameAttrs != [] && c.nameAttrs[0] != "" ==> Name(c, e) == LdapValue(e, c.nameAttrs[0])
  {
  }

  /** A DN whatever the case, the empty text without a value, the one value, or the values between semicolons. */
  lemma ValueRead(e: Entry, attr: string)
    ensures |attr| == 2 && attr[0] in "dD" && attr[1] in "nN" ==> LdapValue(e, attr) == e.dn
    ensures !(|attr| == 2 && attr[0] in "dD" && attr[1] in "nN") ==>
              && (attr !in e.attrs ==> LdapValue(e, attr) == "")
              && (attr in e.attrs && e.attrs[attr].One? ==> LdapValue(e, attr) == e.attrs[attr].text)
    ensures !(|attr| == 2 && attr[0] in "dD" && attr[1] in "nN") && attr in e.attrs && e.attrs[attr].Many? ==>
              var texts := e.attrs[attr].texts;
              && (texts == [] ==> LdapValue(e, attr) == "")
              && (texts != [] && (forall i :: 0 <= i < |texts| ==> ';' !in texts[i]) ==>
                    Text.Split(LdapValue(e, attr), ';') == texts)
  {
    assert IsDn(attr) <==> |attr| == 2 && attr[0] in "dD" && attr[1] in "nN" by {
      assert |attr| == 2 ==> attr == [attr[0]] + [attr[1]];
    }
    if attr in e.attrs && e.attrs[attr].Many? {
      var texts := e.attrs[attr].texts;
      if texts != [] && (forall i :: 0 <= i < |texts| ==> ';' !in texts[i]) {
        Text.SplitJoin(texts, ';');
      }
    }
  }

  /**
   * `searchGroups(userValue)` with the default empty `dupCheck`.  On a clean directory the result names
   * exactly the groups that contain the user directly or through nested groups; when groups are nested
   * by name it names exactly the direct ones.
   */
  method SearchUserGroups(dir: Directory, c: Config, value: string) returns (groups: map<string, GroupData>)
    ensures Collected(dir, c, value, groups) && groups.Keys <= ReachableNames(dir, c, value)
    ensures Clean(dir, c, value) ==> groups.Keys == ReachableNames(dir, c, value)
    ensures NestedByName(c) ==> groups.Keys == DirectNames(dir, c, value)
    ensures !c.recursive || c.parentAttr == "" ==> groups.Keys == DirectNames(dir, c, value)
    ensures forall n :: n in groups ==>
              exists e :: Reaches(dir, c, value, e) && Name(c, e) == n && Describes(c, e, n, groups[n])
  {
    var dupCheck := new NameSet();
    groups := SearchGroups(dir, c, value, dupCheck);
    assert dupCheck.names == groups.Keys;
    CollectedIsReachable(dir, c, value, groups);
    if Clean(dir, c, value) {
      ClosedHoldsAll(dir, c, value, groups.Keys);
    }
    if !c.recursive || c.parentAttr == "" {
      FlatIsDirect(dir, c, value);
    }
    forall n | n in groups
      ensures exists e :: Reaches(dir, c, value, e) && Name(c, e) == n && Describes(c, e, n, groups[n])
    {
      assert Shows(dir, c, value, n, groups[n]);
      var e :| Reaches(dir, c, value, e) && Name(c, e) == n && groups[n] == GroupDataOf(c, e);
      DataDescribes(c, e);
    }
  }
}
