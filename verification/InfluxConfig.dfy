/**
 `pg addon influxdb config set` and `unset`: edits of the stored list of SECTION.KEY=VALUE
 entries. On values first: what one edit does to a list, and that it is map update or removal.
 */
module InfluxConfig {
  import opened Text
  import opened Lists
  import opened Runs

  // --- entries -------------------------------------------------------------------------

  datatype Key = Key(section: string, key: string)

  predicate IdentChar(c: char) {
    'A' <= c <= 'Z' || 'a' <= c <= 'z' || '0' <= c <= '9' || c == '_' || c == '-'
  }

  predicate Ident(s: string) {
    s != "" && forall i :: 0 <= i < |s| ==> IdentChar(s[i])
  }

  /** The key of `ParseInfluxDBConfigOption`, from the two sides of the first '='. */
  function KeyFrom(left: string, right: string): (r: Option<Key>)
    ensures r.Some? ==> Ident(r.value.key) && (r.value.section == "" || Ident(r.value.section))
  {
    var qualified := TrimSpace(left);
    if qualified == "" || TrimSpace(right) == "" then None
    else
      var parts := Split(qualified, '.');
      if |parts| == 1 then (if Ident(parts[0]) then Some(Key("", parts[0])) else None)
      else if |parts| == 2 then
        (if (parts[0] == "" || Ident(parts[0])) && Ident(parts[1]) then Some(Key(parts[0], parts[1])) else None)
      else None
  }

  function KeyOf(opt: string): (r: Option<Key>)
    ensures r.Some? ==> Ident(r.value.key) && (r.value.section == "" || Ident(r.value.section))
  {
    var cut := Cut(opt, '=');
    if cut.found then KeyFrom(cut.before, cut.after) else None
  }

  lemma IdentIsPlain(s: string)
    requires Ident(s)
    ensures '.' !in s && '=' !in s && TrimSpace(s) == s
    ensures forall i :: 0 <= i < |s| ==> !IsSpace(s[i])
  {
  }

  lemma KeyFromName(name: string, right: string, k: Key)
    requires TrimSpace(name) == name && name != "" && TrimSpace(right) != ""
    requires Split(name, '.') == (if k.section == "" then [k.key] else [k.section, k.key])
    requires Ident(k.key) && (k.section == "" || Ident(k.section))
    ensures KeyFrom(name, right) == Some(k)
  {
  }

  lemma NameSplits(k: Key)
    requires Ident(k.key) && (k.section == "" || Ident(k.section))
    ensures var name := if k.section == "" then k.key else k.section + "." + k.key;
            && Split(name, '.') == (if k.section == "" then [k.key] else [k.section, k.key])
            && TrimSpace(name) == name && name != "" && '=' !in name
  {
    IdentIsPlain(k.key);
    SplitOne(k.key, '.');
    if k.section != "" {
      IdentIsPlain(k.section);
      SplitOne(k.section, '.');
      SplitAppend(k.section, '.', k.key);
      var name := k.section + "." + k.key;
      assert name == k.section + ['.'] + k.key;
      assert !IsSpace(name[0]) && !IsSpace(name[|name| - 1]);
    }
  }

  /** An option written section.key=value, or key=value, with any value that is not blank, has that
      section and key; a text without '=' or with a blank value is no option. */
  lemma OptionReadsBack(k: Key, value: string)
    requires Ident(k.key) && (k.section == "" || Ident(k.section))
    ensures var name := if k.section == "" then k.key else k.section + "." + k.key;
            KeyOf(name + "=" + value) == (if TrimSpace(value) == "" then None else Some(k))
    ensures forall opt :: '=' !in opt ==> KeyOf(opt) == None
  {
    var name := if k.section == "" then k.key else k.section + "." + k.key;
    NameSplits(k);
    CutAt(name, '=', value);
    assert name + ['='] + value == name + "=" + value;
    if TrimSpace(value) != "" { KeyFromName(name, value, k); }
  }

  // --- one edit ---------------------------------------------------------------------------

  /** Replace the first entry with the same key, or append. */
  function SetOne(s: seq<string>, k: Key, opt: string): seq<string> {
    if s == [] then [opt]
    else if KeyOf(s[0]) == Some(k) then [opt] + s[1..]
    else [s[0]] + SetOne(s[1..], k, opt)
  }

  /** Drop every entry with the key; entries that do not parse are kept. */
  function UnsetOne(s: seq<string>, k: Key): (r: seq<string>)
    ensures |r| <= |s|
  {
    if s == [] then []
    else if KeyOf(s[0]) == Some(k) then UnsetOne(s[1..], k)
    else [s[0]] + UnsetOne(s[1..], k)
  }

  predicate Has(s: seq<string>, k: Key) {
    exists i :: 0 <= i < |s| && KeyOf(s[i]) == Some(k)
  }

  // --- whole commands ------------------------------------------------------------------------

  function SetAll(s: seq<string>, args: seq<string>): Option<seq<string>>
    decreases |args|
  {
    if args == [] then Some(s)
    else
      match KeyOf(args[0])
      case None => None
      case Some(k) => SetAll(SetOne(s, k, args[0]), args[1..])
  }

  /** The key form of an argument borrows the parser with a placeholder value. */
  function ArgKey(arg: string): Option<Key> {
    KeyOf(arg + "=x")
  }

  function UnsetAll(s: seq<string>, args: seq<string>): Option<seq<string>>
    decreases |args|
  {
    if args == [] then Some(s)
    else
      match ArgKey(args[0])
      case None => None
      case Some(k) => if Has(s, k) then UnsetAll(UnsetOne(s, k), args[1..]) else None
  }

  function FullName(k: Key): string {
    if k.section == "" then k.key else k.section + "." + k.key
  }

  const MANAGED: set<string> := {
    "reporting-disabled", "bind-address", "meta.dir", "data.dir", "data.wal-dir",
    "http.bind-address", "http.auth-enabled" }

  /** `ValidateInfluxDBExtraConfig`: every entry parses, none is managed, no name repeats. */
  ghost predicate Valid(s: seq<string>) {
    && (forall i :: 0 <= i < |s| ==> KeyOf(s[i]).Some? && FullName(KeyOf(s[i]).value) !in MANAGED)
    && (forall i, j :: 0 <= i < j < |s| ==> FullName(KeyOf(s[i]).value) != FullName(KeyOf(s[j]).value))
  }

  datatype Event = Set(args: seq<string>) | Unset(keys: seq<string>)

  /** A command that fails anywhere leaves the stored list as it was. */
  ghost function Step(s: seq<string>, ev: Event): seq<string> {
    match ev
    case Set(args) =>
      var r := SetAll(s, args);
      if r.Some? && Valid(r.value) then r.value else s
    case Unset(keys) =>
      var r := UnsetAll(s, keys);
      if r.Some? then r.value else s
  }

  // --- the map a list stands for ----------------------------------------------------------------

  /** Each key's entry; where a list repeats a key, the last one. */
  function AsMap(s: seq<string>): (m: map<Key, string>) {
    if s == [] then map[]
    else
      var last := s[|s| - 1];
      var m := AsMap(s[..|s| - 1]);
      if KeyOf(last).Some? then m[KeyOf(last).value := last] else m
  }

  ghost predicate Unique(s: seq<string>) {
    forall i, j :: 0 <= i < j < |s| && KeyOf(s[i]).Some? ==> KeyOf(s[i]) != KeyOf(s[j])
  }

  /** The map of one entry. */
  function Single(x: string): map<Key, string> {
    if KeyOf(x).Some? then map[KeyOf(x).value := x] else map[]
  }

  lemma MapLaws<K, V>(f: map<K, V>, m: map<K, V>, n: map<K, V>, k: K, v: V)
    ensures k !in f ==> f + m[k := v] == (f + m)[k := v]
    ensures f.Keys == {k} && k !in m ==> map[k := v] + m == (f + m)[k := v]
    ensures m[k := v] + n == m + (map[k := v] + n)
  {
  }

  lemma UpdateOfSum<K, V>(f: map<K, V>, m: map<K, V>, k: K, v: V)
    ensures f + m[k := v] == (f + m)[k := v]
  {
  }

  lemma AsMapSnoc(s: seq<string>, x: string)
    ensures AsMap(s + [x]) == if KeyOf(x).Some? then AsMap(s)[KeyOf(x).value := x] else AsMap(s)
  {
    assert (s + [x])[..|s|] == s;
  }

  lemma {:induction false} AsMapFront(x: string, s: seq<string>)
    ensures AsMap([x] + s) == Single(x) + AsMap(s)
  {
    if s == [] {
      AsMapSnoc([], x);
      assert [] + [x] == [x] + s;
    } else {
      var init, last := s[..|s| - 1], s[|s| - 1];
      AsMapFront(x, init);
      AsMapSnoc([x] + init, last);
      AsMapSnoc(init, last);
      assert s == init + [last];
      AppendAssoc([x], init, [last]);
      if KeyOf(last).Some? { UpdateOfSum(Single(x), AsMap(init), KeyOf(last).value, last); }
    }
  }

  lemma {:induction false} AsMapKeys(s: seq<string>, k: Key)
    ensures k in AsMap(s) <==> Has(s, k)
  {
    if s != [] {
      var init := s[..|s| - 1];
      AsMapKeys(init, k);
      assert s == init + [s[|s| - 1]];
      assert Has(s, k) <==> Has(init, k) || KeyOf(s[|s| - 1]) == Some(k) by {
        if Has(init, k) {
          var i :| 0 <= i < |init| && KeyOf(init[i]) == Some(k);
          assert KeyOf(s[i]) == Some(k);
        }
      }
    }
  }

  lemma UniqueTail(s: seq<string>)
    requires s != [] && Unique(s)
    ensures Unique(s[1..]) && (KeyOf(s[0]).Some? ==> !Has(s[1..], KeyOf(s[0]).value))
  {
    forall i, j | 0 <= i < j < |s[1..]| && KeyOf(s[1..][i]).Some?
      ensures KeyOf(s[1..][i]) != KeyOf(s[1..][j])
    {
      assert s[1..][i] == s[i + 1] && s[1..][j] == s[j + 1];
    }
    forall i | 0 <= i < |s[1..]| && KeyOf(s[0]).Some?
      ensures KeyOf(s[1..][i]) != KeyOf(s[0])
    {
      assert s[1..][i] == s[i + 1];
    }
  }

  lemma KeysDifferCons<T, K>(key: T -> Option<K>, x: T, s: seq<T>)
    requires forall i, j :: 0 <= i < j < |s| && key(s[i]).Some? ==> key(s[i]) != key(s[j])
    requires key(x).Some? ==> forall j :: 0 <= j < |s| ==> key(s[j]) != key(x)
    ensures var t := [x] + s; forall i, j :: 0 <= i < j < |t| && key(t[i]).Some? ==> key(t[i]) != key(t[j])
  {
    var t := [x] + s;
    forall i, j | 0 <= i < j < |t| && key(t[i]).Some?
      ensures key(t[i]) != key(t[j])
    {
      assert t[j] == s[j - 1] && (i > 0 ==> t[i] == s[i - 1]);
    }
  }

  lemma UniqueCons(x: string, s: seq<string>)
    requires Unique(s) && (KeyOf(x).Some? ==> !Has(s, KeyOf(x).value))
    ensures Unique([x] + s)
  {
    KeysDifferCons(KeyOf, x, s);
  }

  lemma {:induction false} SetOneKeys(s: seq<string>, k: Key, opt: string, k': Key)
    requires KeyOf(opt) == Some(k)
    ensures Has(SetOne(s, k, opt), k') <==> Has(s, k') || k' == k
  {
    var t := SetOne(s, k, opt);
    if s == [] {
      assert t[0] == opt;
    } else {
      assert s == [s[0]] + s[1..];
      HasCons(s[0], s[1..], k');
      if KeyOf(s[0]) == Some(k) {
        HasCons(opt, s[1..], k');
      } else {
        SetOneKeys(s[1..], k, opt, k');
        HasCons(s[0], SetOne(s[1..], k, opt), k');
      }
    }
  }

  lemma ExistsCons<T>(x: T, s: seq<T>, p: T -> bool)
    ensures (exists i :: 0 <= i < |[x] + s| && p(([x] + s)[i])) <==> p(x) || exists i :: 0 <= i < |s| && p(s[i])
  {
    var t := [x] + s;
    if i :| 0 <= i < |s| && p(s[i]) { assert t[i + 1] == s[i]; }
    if p(x) { assert t[0] == x; }
    if i :| 0 <= i < |t| && p(t[i]) { assert i > 0 ==> t[i] == s[i - 1]; }
  }

  lemma HasOlder(x: string, s: seq<string>, k: Key)
    requires KeyOf(x) == Some(k) || Has(s, k)
    ensures Has([x] + s, k)
  {
    var t := [x] + s;
    if KeyOf(x) == Some(k) {
      assert t[0] == x;
    } else {
      var i :| 0 <= i < |s| && KeyOf(s[i]) == Some(k);
      assert t[i + 1] == s[i];
    }
  }

  lemma HasCons(x: string, s: seq<string>, k: Key)
    ensures Has([x] + s, k) <==> KeyOf(x) == Some(k) || Has(s, k)
  {
    if KeyOf(x) == Some(k) || Has(s, k) {
      HasOlder(x, s, k);
    } else {
      var t := [x] + s;
      forall i | 0 <= i < |t| ensures KeyOf(t[i]) != Some(k) { assert i > 0 ==> t[i] == s[i - 1]; }
    }
  }

  lemma {:induction false} SetUpdatesMap(s: seq<string>, k: Key, opt: string)
    requires Unique(s) && KeyOf(opt) == Some(k)
    ensures AsMap(SetOne(s, k, opt)) == AsMap(s)[k := opt]
  {
    if s == [] {
      assert AsMap([opt][..0]) == map[];
    } else {
      var rest := s[1..];
      HeadTail(s);
      UniqueTail(s);
      AsMapFront(s[0], rest);
      MapLaws(Single(s[0]), AsMap(rest), map[], k, opt);
      if KeyOf(s[0]) == Some(k) {
        AsMapFront(opt, rest);
        AsMapKeys(rest, k);
      } else {
        SetUpdatesMap(rest, k, opt);
        AsMapFront(s[0], SetOne(rest, k, opt));
      }
    }
  }

  lemma {:induction false} SetKeepsUnique(s: seq<string>, k: Key, opt: string)
    requires Unique(s) && KeyOf(opt) == Some(k)
    ensures Unique(SetOne(s, k, opt))
  {
    if s != [] {
      var rest := s[1..];
      UniqueTail(s);
      if KeyOf(s[0]) == Some(k) {
        UniqueCons(opt, rest);
      } else {
        SetKeepsUnique(rest, k, opt);
        if KeyOf(s[0]).Some? { SetOneKeys(rest, k, opt, KeyOf(s[0]).value); }
        UniqueCons(s[0], SetOne(rest, k, opt));
      }
    }
  }

  lemma {:induction false} SetKeepsOthers(s: seq<string>, k: Key, opt: string)
    requires KeyOf(opt) == Some(k)
    ensures UnsetOne(SetOne(s, k, opt), k) == UnsetOne(s, k)
  {
    if s == [] {
      TailOfCons<string>(opt, []);
    } else if KeyOf(s[0]) == Some(k) {
      TailOfCons(opt, s[1..]);
    } else {
      TailOfCons(s[0], SetOne(s[1..], k, opt));
      SetKeepsOthers(s[1..], k, opt);
    }
  }

  /** Setting is map update, keeps keys unique, and leaves the other entries and their order:
      with the key dropped, the list is the same before and after. */
  lemma SetIsUpdate(s: seq<string>, k: Key, opt: string)
    requires Unique(s) && KeyOf(opt) == Some(k)
    ensures AsMap(SetOne(s, k, opt)) == AsMap(s)[k := opt]
    ensures Unique(SetOne(s, k, opt))
    ensures UnsetOne(SetOne(s, k, opt), k) == UnsetOne(s, k)
  {
    SetUpdatesMap(s, k, opt);
    SetKeepsUnique(s, k, opt);
    SetKeepsOthers(s, k, opt);
  }

  // --- the order of the entries ------------------------------------------------------------------

  /** The entries whose key is not among `ks`, in order. */
  function Untouched(s: seq<string>, ks: set<Key>): seq<string> {
    if s == [] then []
    else if KeyOf(s[0]).Some? && KeyOf(s[0]).value in ks then Untouched(s[1..], ks)
    else [s[0]] + Untouched(s[1..], ks)
  }

  /** The key at each position. */
  function KeyList(s: seq<string>): (r: seq<Option<Key>>)
    ensures |r| == |s| && forall i :: 0 <= i < |s| ==> r[i] == KeyOf(s[i])
  {
    if s == [] then [] else [KeyOf(s[0])] + KeyList(s[1..])
  }

  lemma {:induction false} SetUntouched(s: seq<string>, k: Key, opt: string, ks: set<Key>)
    requires KeyOf(opt) == Some(k) && k in ks
    ensures Untouched(SetOne(s, k, opt), ks) == Untouched(s, ks)
  {
    if s == [] {
      TailOfCons<string>(opt, []);
    } else if KeyOf(s[0]) == Some(k) {
      TailOfCons(opt, s[1..]);
    } else {
      TailOfCons(s[0], SetOne(s[1..], k, opt));
      SetUntouched(s[1..], k, opt, ks);
    }
  }

  /** A set keeps every entry's place; a fresh key comes last. */
  lemma {:induction false} SetKeepsPlaces(s: seq<string>, k: Key, opt: string)
    requires KeyOf(opt) == Some(k)
    ensures KeyList(s) <= KeyList(SetOne(s, k, opt))
  {
    if s != [] {
      if KeyOf(s[0]) == Some(k) {
        TailOfCons(opt, s[1..]);
      } else {
        TailOfCons(s[0], SetOne(s[1..], k, opt));
        SetKeepsPlaces(s[1..], k, opt);
      }
    }
  }

  lemma {:induction false} UnsetUntouched(s: seq<string>, k: Key, ks: set<Key>)
    ensures Untouched(UnsetOne(s, k), ks) == Untouched(s, ks + {k})
  {
    if s != [] {
      UnsetUntouched(s[1..], k, ks);
      if KeyOf(s[0]) != Some(k) { TailOfCons(s[0], UnsetOne(s[1..], k)); }
    }
  }

  lemma {:induction false} NothingTouched(s: seq<string>)
    ensures Untouched(s, {}) == s
  {
    if s != [] {
      NothingTouched(s[1..]);
      HeadTail(s);
    }
  }

  lemma {:induction false} UnsetKeys(s: seq<string>, k: Key, k': Key)
    ensures Has(UnsetOne(s, k), k') <==> Has(s, k') && k' != k
  {
    if s != [] {
      assert s == [s[0]] + s[1..];
      HasCons(s[0], s[1..], k');
      UnsetKeys(s[1..], k, k');
      if KeyOf(s[0]) != Some(k) { HasCons(s[0], UnsetOne(s[1..], k), k'); }
    }
  }

  lemma RemovalOfSum<K, V>(f: map<K, V>, m: map<K, V>, k: K)
    ensures k !in f ==> f + (m - {k}) == (f + m) - {k}
    ensures f.Keys == {k} && k !in m ==> (f + m) - {k} == m - {k}
  {
  }

  lemma {:induction false} UnsetUnique(s: seq<string>, k: Key)
    requires Unique(s)
    ensures Unique(UnsetOne(s, k))
  {
    if s != [] {
      UniqueTail(s);
      UnsetUnique(s[1..], k);
      if KeyOf(s[0]) != Some(k) {
        if KeyOf(s[0]).Some? { UnsetKeys(s[1..], k, KeyOf(s[0]).value); }
        UniqueCons(s[0], UnsetOne(s[1..], k));
      }
    }
  }

  /** Unsetting is map removal, keeps keys unique, and keeps every other entry in order. */
  lemma {:induction false} UnsetIsRemoval(s: seq<string>, k: Key)
    requires Unique(s)
    ensures AsMap(UnsetOne(s, k)) == AsMap(s) - {k}
    ensures Unique(UnsetOne(s, k))
    ensures UnsetOne(s, k) == Untouched(s, {k})
  {
    UnsetUnique(s, k);
    UnsetUntouched(s, k, {});
    NothingTouched(UnsetOne(s, k));
    assert {} + {k} == {k};
    if s != [] {
      var x, rest := s[0], s[1..];
      HeadTail(s);
      UniqueTail(s);
      AsMapFront(x, rest);
      UnsetIsRemoval(rest, k);
      RemovalOfSum(Single(x), AsMap(rest), k);
      if KeyOf(x) != Some(k) {
        AsMapFront(x, UnsetOne(rest, k));
      } else {
        AsMapKeys(rest, k);
      }
    }
  }

  lemma {:induction false} UnsetAbsent(s: seq<string>, k: Key)
    requires !Has(s, k)
    ensures UnsetOne(s, k) == s
  {
    if s != [] {
      assert s == [s[0]] + s[1..];
      HasCons(s[0], s[1..], k);
      UnsetAbsent(s[1..], k);
    }
  }

  /** Setting a fresh key and unsetting it gives the original list back. */
  lemma SetThenUnset(s: seq<string>, k: Key, opt: string)
    requires Unique(s) && KeyOf(opt) == Some(k) && !Has(s, k)
    ensures UnsetOne(SetOne(s, k, opt), k) == s
  {
    SetIsUpdate(s, k, opt);
    UnsetAbsent(s, k);
  }

  lemma ArgumentKeys(name: string, value: string)
    requires '=' !in name && TrimSpace(value) != ""
    ensures ArgKey(name) == KeyOf(name + "=" + value)
  {
    CutAt(name, '=', value);
    CutAt(name, '=', "x");
    assert TrimSpace("x") == "x";
  }

  /** The same on the command line: `set NAME=VALUE` of a fresh name, then `unset NAME`. */
  lemma CommandsCancel(s: seq<string>, name: string, value: string)
    requires Unique(s) && '=' !in name && TrimSpace(value) != ""
    requires ArgKey(name).Some? && !Has(s, ArgKey(name).value)
    ensures var opt := name + "=" + value;
            SetAll(s, [opt]).Some? && UnsetAll(SetAll(s, [opt]).value, [name]) == Some(s)
  {
    var opt, k := name + "=" + value, ArgKey(name).value;
    ArgumentKeys(name, value);
    SetThenUnset(s, k, opt);
    SetOneKeys(s, k, opt, k);
    assert [opt][1..] == [] && [name][1..] == [];
  }

  // --- commands refine map operations --------------------------------------------------------------

  predicate AllKeyed(args: seq<string>) {
    forall i :: 0 <= i < |args| ==> KeyOf(args[i]).Some?
  }

  /** The keys a command names. */
  function SetKeys(args: seq<string>): set<Key> {
    if args == [] then {} else (if KeyOf(args[0]).Some? then {KeyOf(args[0]).value} else {}) + SetKeys(args[1..])
  }

  function UnsetNames(args: seq<string>): set<Key> {
    if args == [] then {} else (if ArgKey(args[0]).Some? then {ArgKey(args[0]).value} else {}) + UnsetNames(args[1..])
  }

  /** The entries no argument names stay as they are and in order, and every stored entry keeps its
      place. */
  lemma {:induction false} SetAllKeepsOrder(s: seq<string>, args: seq<string>, ks: set<Key>)
    requires SetAll(s, args).Some? && SetKeys(args) <= ks
    ensures Untouched(SetAll(s, args).value, ks) == Untouched(s, ks)
    ensures KeyList(s) <= KeyList(SetAll(s, args).value)
    decreases |args|
  {
    if args != [] {
      var k := KeyOf(args[0]).value;
      SetUntouched(s, k, args[0], ks);
      SetKeepsPlaces(s, k, args[0]);
      SetAllKeepsOrder(SetOne(s, k, args[0]), args[1..], ks);
    }
  }

  /** What an unset leaves is exactly the entries it does not name, in order. */
  lemma {:induction false} UnsetAllIsUntouched(s: seq<string>, args: seq<string>)
    requires UnsetAll(s, args).Some?
    ensures UnsetAll(s, args).value == Untouched(s, UnsetNames(args))
    decreases |args|
  {
    if args == [] {
      NothingTouched(s);
    } else {
      var k := ArgKey(args[0]).value;
      UnsetAllIsUntouched(UnsetOne(s, k), args[1..]);
      UnsetUntouched(s, k, UnsetNames(args[1..]));
      assert UnsetNames(args[1..]) + {k} == UnsetNames(args);
    }
  }

  lemma {:induction false} UntouchedTwice(s: seq<string>, ks: set<Key>, more: set<Key>)
    requires ks <= more
    ensures Untouched(Untouched(s, ks), more) == Untouched(s, more)
  {
    if s != [] {
      UntouchedTwice(s[1..], ks, more);
      TailOfCons(s[0], Untouched(s[1..], ks));
    }
  }

  lemma ForallCons<T>(x: T, s: seq<T>, p: T -> bool)
    ensures (forall i :: 0 <= i < |[x] + s| ==> p(([x] + s)[i])) <==> p(x) && forall i :: 0 <= i < |s| ==> p(s[i])
  {
    ExistsCons(x, s, y => !p(y));
  }

  lemma AllKeyedCons(x: string, rest: seq<string>)
    ensures AllKeyed([x] + rest) <==> KeyOf(x).Some? && AllKeyed(rest)
  {
    ForallCons(x, rest, y => KeyOf(y).Some?);
  }

  lemma FirstUpdate(s: seq<string>, x: string, k: Key, rest: seq<string>)
    requires Unique(s) && KeyOf(x) == Some(k)
    ensures Unique(SetOne(s, k, x))
    ensures AsMap(SetOne(s, k, x)) + AsMap(rest) == AsMap(s) + AsMap([x] + rest)
  {
    SetUpdatesMap(s, k, x);
    SetKeepsUnique(s, k, x);
    AsMapFront(x, rest);
    MapLaws(map[], AsMap(s), AsMap(rest), k, x);
  }

  lemma SetAllCons(s: seq<string>, x: string, rest: seq<string>)
    ensures SetAll(s, [x] + rest) == if KeyOf(x).Some? then SetAll(SetOne(s, KeyOf(x).value, x), rest) else None
  {
    TailOfCons(x, rest);
  }

  lemma {:induction false} SetAllUpdatesMap(s: seq<string>, args: seq<string>)
    requires Unique(s)
    ensures SetAll(s, args).Some? <==> AllKeyed(args)
    ensures SetAll(s, args).Some? ==>
              Unique(SetAll(s, args).value) && AsMap(SetAll(s, args).value) == AsMap(s) + AsMap(args)
    decreases |args|
  {
    if args != [] {
      var x, rest := args[0], args[1..];
      HeadTail(args);
      AllKeyedCons(x, rest);
      SetAllCons(s, x, rest);
      if KeyOf(x).Some? {
        FirstUpdate(s, x, KeyOf(x).value, rest);
        SetAllUpdatesMap(SetOne(s, KeyOf(x).value, x), rest);
      }
    }
  }

  /** A list of settings is an update by the map of its arguments, in which the last argument
      for a key wins; every stored entry keeps its place, and entries no argument names are
      untouched. */
  lemma SetAllIsUpdate(s: seq<string>, args: seq<string>)
    requires Unique(s)
    ensures SetAll(s, args).Some? <==> AllKeyed(args)
    ensures SetAll(s, args).Some? ==>
              && Unique(SetAll(s, args).value) && AsMap(SetAll(s, args).value) == AsMap(s) + AsMap(args)
              && KeyList(s) <= KeyList(SetAll(s, args).value)
              && Untouched(SetAll(s, args).value, SetKeys(args)) == Untouched(s, SetKeys(args))
  {
    SetAllUpdatesMap(s, args);
    if SetAll(s, args).Some? { SetAllKeepsOrder(s, args, SetKeys(args)); }
  }

  function ArgKeys(args: seq<string>): (r: seq<Option<Key>>)
    ensures |r| == |args| && forall i :: 0 <= i < |args| ==> r[i] == ArgKey(args[i])
  {
    if args == [] then [] else [ArgKey(args[0])] + ArgKeys(args[1..])
  }

  /** A map with every named key present loses them all; a missing or repeated key fails. */
  function RemoveAll(m: map<Key, string>, args: seq<string>): Option<map<Key, string>>
    decreases |args|
  {
    if args == [] then Some(m)
    else if ArgKey(args[0]).Some? && ArgKey(args[0]).value in m then RemoveAll(m - {ArgKey(args[0]).value}, args[1..])
    else None
  }

  lemma {:induction false} UnsetAllRemoves(s: seq<string>, args: seq<string>)
    requires Unique(s)
    ensures UnsetAll(s, args).Some? <==> RemoveAll(AsMap(s), args).Some?
    ensures UnsetAll(s, args).Some? ==>
              Unique(UnsetAll(s, args).value) && AsMap(UnsetAll(s, args).value) == RemoveAll(AsMap(s), args).value
    decreases |args|
  {
    if args != [] && ArgKey(args[0]).Some? {
      var k := ArgKey(args[0]).value;
      AsMapKeys(s, k);
      if Has(s, k) {
        UnsetIsRemoval(s, k);
        UnsetAllRemoves(UnsetOne(s, k), args[1..]);
      }
    }
  }

  /** A list of keys is removed when each is present in its turn; what is left is the rest of the
      list, in order. */
  lemma UnsetAllIsRemoval(s: seq<string>, args: seq<string>)
    requires Unique(s)
    ensures UnsetAll(s, args).Some? <==> RemoveAll(AsMap(s), args).Some?
    ensures UnsetAll(s, args).Some? ==>
              && Unique(UnsetAll(s, args).value) && AsMap(UnsetAll(s, args).value) == RemoveAll(AsMap(s), args).value
              && UnsetAll(s, args).value == Untouched(s, UnsetNames(args))
  {
    UnsetAllRemoves(s, args);
    if UnsetAll(s, args).Some? { UnsetAllIsUntouched(s, args); }
  }

  // --- validity and whole runs ---------------------------------------------------------------------------

  lemma FullNameInjective(a: Key, b: Key)
    requires Ident(a.key) && Ident(b.key) && (a.section == "" || Ident(a.section)) && (b.section == "" || Ident(b.section))
    requires FullName(a) == FullName(b)
    ensures a == b
  {
    assert '.' !in a.key && '.' !in b.key && '.' !in a.section && '.' !in b.section;
    if a.section != "" { CutAt(a.section, '.', a.key); }
    if b.section != "" { CutAt(b.section, '.', b.key); }
    assert b.section != "" ==> FullName(b)[|b.section|] == '.';
    assert a.section != "" ==> FullName(a)[|a.section|] == '.';
  }

  /** The textual duplicate check is uniqueness of keys. */
  lemma ValidExact(s: seq<string>)
    ensures Valid(s) <==> AllKeyed(s) && Unique(s) && forall k :: k in AsMap(s) ==> FullName(k) !in MANAGED
  {
    forall k ensures k in AsMap(s) <==> Has(s, k) { AsMapKeys(s, k); }
    if Valid(s) {
      forall i, j | 0 <= i < j < |s| ensures KeyOf(s[i]) != KeyOf(s[j]) {
        assert FullName(KeyOf(s[i]).value) != FullName(KeyOf(s[j]).value);
      }
    }
    if AllKeyed(s) && Unique(s) && forall k :: k in AsMap(s) ==> FullName(k) !in MANAGED {
      forall i | 0 <= i < |s| ensures FullName(KeyOf(s[i]).value) !in MANAGED {
        assert Has(s, KeyOf(s[i]).value);
      }
      forall i, j | 0 <= i < j < |s| ensures FullName(KeyOf(s[i]).value) != FullName(KeyOf(s[j]).value) {
        if FullName(KeyOf(s[i]).value) == FullName(KeyOf(s[j]).value) {
          FullNameInjective(KeyOf(s[i]).value, KeyOf(s[j]).value);
        }
      }
    }
  }

  /** The commands on the map alone. */
  function MapStep(m: map<Key, string>, ev: Event): map<Key, string> {
    match ev
    case Set(args) =>
      if AllKeyed(args) && forall k :: k in AsMap(args) ==> FullName(k) !in MANAGED then m + AsMap(args) else m
    case Unset(keys) =>
      if RemoveAll(m, keys).Some? then RemoveAll(m, keys).value else m
  }

  lemma {:induction false} SetAllKeyed(s: seq<string>, args: seq<string>)
    requires AllKeyed(s) && SetAll(s, args).Some?
    ensures AllKeyed(SetAll(s, args).value)
    decreases |args|
  {
    if args != [] {
      SetOneKeyed(s, KeyOf(args[0]).value, args[0]);
      SetAllKeyed(SetOne(s, KeyOf(args[0]).value, args[0]), args[1..]);
    }
  }

  lemma {:induction false} SetOneKeyed(s: seq<string>, k: Key, opt: string)
    requires AllKeyed(s) && KeyOf(opt).Some?
    ensures AllKeyed(SetOne(s, k, opt))
  {
    if s != [] {
      assert AllKeyed(s[1..]);
      if KeyOf(s[0]) != Some(k) { SetOneKeyed(s[1..], k, opt); }
    }
  }

  lemma {:induction false} UnsetAllValid(s: seq<string>, args: seq<string>)
    requires AllKeyed(s) && UnsetAll(s, args).Some?
    ensures AllKeyed(UnsetAll(s, args).value)
    decreases |args|
  {
    if args != [] {
      var k := ArgKey(args[0]).value;
      UnsetOneKeyed(s, k);
      UnsetAllValid(UnsetOne(s, k), args[1..]);
    }
  }

  lemma {:induction false} UnsetOneKeyed(s: seq<string>, k: Key)
    requires AllKeyed(s)
    ensures AllKeyed(UnsetOne(s, k))
  {
    if s != [] {
      assert AllKeyed(s[1..]);
      UnsetOneKeyed(s[1..], k);
    }
  }

  lemma {:induction false} RemoveAllSubset(m: map<Key, string>, args: seq<string>)
    requires RemoveAll(m, args).Some?
    ensures RemoveAll(m, args).value.Keys <= m.Keys
    decreases |args|
  {
    if args != [] { RemoveAllSubset(m - {ArgKey(args[0]).value}, args[1..]); }
  }

  /** The keys a command may change. */
  function Named(ev: Event): set<Key> {
    match ev
    case Set(args) => SetKeys(args)
    case Unset(keys) => UnsetNames(keys)
  }

  lemma StepKeepsOrder(s: seq<string>, ev: Event, ks: set<Key>)
    requires Named(ev) <= ks
    ensures Untouched(Step(s, ev), ks) == Untouched(s, ks)
  {
    match ev
    case Set(args) =>
      if SetAll(s, args).Some? { SetAllKeepsOrder(s, args, ks); }
    case Unset(keys) =>
      if UnsetAll(s, keys).Some? {
        UnsetAllIsUntouched(s, keys);
        UntouchedTwice(s, UnsetNames(keys), ks);
      }
  }

  lemma SetRefinesMap(s: seq<string>, args: seq<string>)
    requires Valid(s)
    ensures Valid(Step(s, Set(args))) && AsMap(Step(s, Set(args))) == MapStep(AsMap(s), Set(args))
  {
    ValidExact(s);
    SetAllUpdatesMap(s, args);
    if SetAll(s, args).Some? {
      SetAllKeyed(s, args);
      ValidExact(SetAll(s, args).value);
    }
  }

  lemma UnsetRefinesMap(s: seq<string>, keys: seq<string>)
    requires Valid(s)
    ensures Valid(Step(s, Unset(keys))) && AsMap(Step(s, Unset(keys))) == MapStep(AsMap(s), Unset(keys))
  {
    ValidExact(s);
    UnsetAllRemoves(s, keys);
    if UnsetAll(s, keys).Some? {
      UnsetAllValid(s, keys);
      RemoveAllSubset(AsMap(s), keys);
      ValidExact(UnsetAll(s, keys).value);
    }
  }

  lemma StepRefinesMap(s: seq<string>, ev: Event)
    requires Valid(s)
    ensures Valid(Step(s, ev))
    ensures AsMap(Step(s, ev)) == MapStep(AsMap(s), ev)
  {
    match ev
    case Set(args) => SetRefinesMap(s, args);
    case Unset(keys) => UnsetRefinesMap(s, keys);
  }

  /** One command on a valid list: it stays valid, its map changes as the map command says, and the
      entries the command does not name stay as they are and in order. */
  lemma StepRefines(s: seq<string>, ev: Event)
    requires Valid(s)
    ensures Valid(Step(s, ev))
    ensures AsMap(Step(s, ev)) == MapStep(AsMap(s), ev)
    ensures Untouched(Step(s, ev), Named(ev)) == Untouched(s, Named(ev))
  {
    StepRefinesMap(s, ev);
    StepKeepsOrder(s, ev, Named(ev));
  }

  function NamedIn(evs: seq<Event>): set<Key> {
    if evs == [] then {} else Named(evs[0]) + NamedIn(evs[1..])
  }

  lemma {:induction false} RunKeepsOrder(s: seq<string>, evs: seq<Event>, ks: set<Key>)
    requires NamedIn(evs) <= ks
    ensures Untouched(Run((s, ev) => Step(s, ev), s, evs), ks) == Untouched(s, ks)
    decreases |evs|
  {
    if evs != [] {
      StepKeepsOrder(s, evs[0], ks);
      RunKeepsOrder(Step(s, evs[0]), evs[1..], ks);
    }
  }

  lemma {:induction false} RunRefinesMap(s: seq<string>, evs: seq<Event>)
    requires Valid(s)
    ensures Valid(Run((s, ev) => Step(s, ev), s, evs))
    ensures AsMap(Run((s, ev) => Step(s, ev), s, evs)) == Run((m, ev) => MapStep(m, ev), AsMap(s), evs)
    decreases |evs|
  {
    if evs != [] {
      StepRefinesMap(s, evs[0]);
      RunRefinesMap(Step(s, evs[0]), evs[1..]);
    }
  }

  /** Over every run of set and unset commands from a valid list, the stored list stays valid, it
      denotes exactly the map that the same commands make of the first list's map, and the entries
      that no command of the run names are still there, unchanged and in order. */
  lemma RunRefines(s: seq<string>, evs: seq<Event>)
    requires Valid(s)
    ensures var t := Run((s, ev) => Step(s, ev), s, evs);
            && Valid(t) && AsMap(t) == Run((m, ev) => MapStep(m, ev), AsMap(s), evs)
            && Untouched(t, NamedIn(evs)) == Untouched(s, NamedIn(evs))
  {
    RunRefinesMap(s, evs);
    RunKeepsOrder(s, evs, NamedIn(evs));
  }
}
