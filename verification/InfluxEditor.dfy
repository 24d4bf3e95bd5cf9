/**
 The list editing of `runAddonInfluxdbConfigSet` and `runAddonInfluxdbConfigUnset` as it is
 written: in place, on a copy of the stored list in one backing array.
 */
module InfluxEditor {
  import opened Text
  import opened Lists
  import opened InfluxConfig

  // --- how the loops compute one edit ----------------------------------------------------

  /** The edit for any kind of element, so that the loops need not look into the keys. */
  function SetAt<T, K(==)>(key: T -> Option<K>, s: seq<T>, k: K, x: T): seq<T> {
    if s == [] then [x]
    else if key(s[0]) == Some(k) then [x] + s[1..]
    else [s[0]] + SetAt(key, s[1..], k, x)
  }

  lemma {:induction false} SetOneIsSetAt(s: seq<string>, k: Key, opt: string)
    ensures SetOne(s, k, opt) == SetAt(KeyOf, s, k, opt)
  {
    if s != [] { SetOneIsSetAt(s[1..], k, opt); }
  }

  lemma {:induction false} SetAtReplaces<T, K>(key: T -> Option<K>, s: seq<T>, k: K, x: T, i: nat)
    requires i < |s| && key(s[i]) == Some(k)
    requires forall j :: 0 <= j < i ==> key(s[j]) != Some(k)
    ensures SetAt(key, s, k, x) == s[i := x]
  {
    if i > 0 {
      assert s[1..][i - 1] == s[i] && forall j :: 0 <= j < i - 1 ==> s[1..][j] == s[j + 1];
      SetAtReplaces(key, s[1..], k, x, i - 1);
      UpdateTail(s, i, x);
    } else {
      UpdateHead(s, x);
    }
  }

  lemma {:induction false} SetAtAppends<T, K>(key: T -> Option<K>, s: seq<T>, k: K, x: T)
    requires forall j :: 0 <= j < |s| ==> key(s[j]) != Some(k)
    ensures SetAt(key, s, k, x) == s + [x]
  {
    if s != [] {
      assert forall j :: 0 <= j < |s| - 1 ==> s[1..][j] == s[j + 1];
      SetAtAppends(key, s[1..], k, x);
      HeadTail(s);
      AppendAssoc([s[0]], s[1..], [x]);
    }
  }

  lemma UpdateTail<T>(s: seq<T>, i: nat, x: T)
    requires 0 < i < |s|
    ensures [s[0]] + s[1..][i - 1 := x] == s[i := x]
  {
  }

  lemma UpdateHead<T>(s: seq<T>, x: T)
    requires s != []
    ensures [x] + s[1..] == s[0 := x]
  {
  }

  lemma SetOneReplaces(s: seq<string>, k: Key, opt: string, i: nat)
    requires i < |s| && KeyOf(s[i]) == Some(k)
    requires forall j :: 0 <= j < i ==> KeyOf(s[j]) != Some(k)
    ensures SetOne(s, k, opt) == s[i := opt]
  {
    SetOneIsSetAt(s, k, opt);
    SetAtReplaces(KeyOf, s, k, opt, i);
  }

  lemma SetOneAppends(s: seq<string>, k: Key, opt: string)
    requires forall j :: 0 <= j < |s| ==> KeyOf(s[j]) != Some(k)
    ensures SetOne(s, k, opt) == s + [opt]
  {
    SetOneIsSetAt(s, k, opt);
    SetAtAppends(KeyOf, s, k, opt);
  }

  lemma {:induction false} UnsetOneSnoc(s: seq<string>, x: string, k: Key)
    ensures UnsetOne(s + [x], k) == UnsetOne(s, k) + if KeyOf(x) == Some(k) then [] else [x]
  {
    if s == [] {
      AppendAssoc<string>([], [], [x]);
      TailOfCons<string>(x, []);
      assert s + [x] == [x];
    } else {
      HeadTail(s);
      AppendAssoc([s[0]], s[1..], [x]);
      TailOfCons(s[0], s[1..] + [x]);
      UnsetOneSnoc(s[1..], x, k);
    }
  }

  lemma {:induction false} HasSnoc(s: seq<string>, x: string, k: Key)
    ensures Has(s + [x], k) <==> Has(s, k) || KeyOf(x) == Some(k)
  {
    var t := s + [x];
    assert t[|s|] == x && forall i :: 0 <= i < |s| ==> t[i] == s[i];
  }

  /** A Go slice: the first `len` elements of a backing array. */
  class Entries {
    var data: array<string>
    var len: nat

    ghost predicate Valid()
      reads this
    {
      len <= data.Length
    }

    ghost function Contents(): seq<string>
      requires Valid()
      reads this, data
    {
      data[..len]
    }

    /** `append([]string(nil), list...)`: a copy in an array of its own. */
    constructor (list: seq<string>)
      ensures Valid() && fresh(data) && Contents() == list
    {
      data := new string[|list|](i requires 0 <= i < |list| => list[i]);
      len := |list|;
      new;
      assert data[..len] == list;
    }

    /** `append`: in place while the array has room, into a larger copy when not. */
    method Append(x: string)
      requires Valid()
      modifies this, data
      ensures Valid() && (data == old(data) || fresh(data))
      ensures Contents() == old(Contents()) + [x]
    {
      if len == data.Length {
        var bigger := new string[2 * len + 1](i reads this, data requires 0 <= i =>
          if i < len && i < data.Length then data[i] else "");
        assert bigger[..len] == data[..len];
        data := bigger;
      }
      data[len] := x;
      len := len + 1;
      assert data[..len] == data[..len - 1] + [x];
    }

    /** Position of the first entry with the key, or the length. */
    method Find(k: Key) returns (i: nat)
      requires Valid()
      ensures i <= len && (forall j :: 0 <= j < i ==> KeyOf(data[j]) != Some(k)) && (i < len ==> KeyOf(data[i]) == Some(k))
    {
      i := 0;
      while i < len && KeyOf(data[i]) != Some(k)
        invariant i <= len && forall j :: 0 <= j < i ==> KeyOf(data[j]) != Some(k)
      {
        i := i + 1;
      }
    }

    /** The search-and-replace of one `config set` argument. */
    method SetOption(k: Key, opt: string)
      requires Valid()
      modifies this, data
      ensures Valid() && (data == old(data) || fresh(data))
      ensures Contents() == SetOne(old(Contents()), k, opt)
    {
      ghost var was := Contents();
      var i := Find(k);
      if i < len {
        SetOneReplaces(was, k, opt, i);
        data[i] := opt;
        assert data[..len] == was[i := opt];
      } else {
        SetOneAppends(was, k, opt);
        Append(opt);
      }
    }

    /** The compaction of one `config unset` argument: `kept := entries[:0]` shares the array it
        reads from. The write position never passes the read position, so no entry is
        overwritten before it is read, and what lies past the result is untouched. */
    method UnsetKey(k: Key) returns (found: bool)
      requires Valid()
      modifies this`len, data
      ensures Valid() && len <= old(len)
      ensures found <==> Has(old(Contents()), k)
      ensures Contents() == UnsetOne(old(Contents()), k)
      ensures forall j :: len <= j < data.Length ==> data[j] == old(data[j])
    {
      ghost var was := Contents();
      var kept := 0;
      found := false;
      for i := 0 to len
        invariant 0 <= kept <= i && len == old(len)
        invariant data[..kept] == UnsetOne(was[..i], k)
        invariant forall j :: kept <= j < data.Length ==> data[j] == old(data[j])
        invariant found <==> Has(was[..i], k)
      {
        var existing := data[i];
        assert existing == was[i];
        TakeNext(was, i);
        UnsetOneSnoc(was[..i], existing, k);
        HasSnoc(was[..i], existing, k);
        if KeyOf(existing) == Some(k) {
          found := true;
        } else {
          data[kept] := existing;
          kept := kept + 1;
          TakeNext(data[..], kept - 1);
          assert data[..kept] == data[..][..kept] && data[..kept - 1] == data[..][..kept - 1];
        }
      }
      TakeAll(was);
      len := kept;
    }
  }

  // --- the commands ------------------------------------------------------------------------------

  function NameOf(entry: string): Option<string> {
    if KeyOf(entry).Some? then Some(FullName(KeyOf(entry).value)) else None
  }

  function Names(entries: seq<string>): (r: seq<Option<string>>)
    ensures |r| == |entries| && forall i :: 0 <= i < |r| ==> r[i] == NameOf(entries[i])
  {
    seq(|entries|, i requires 0 <= i < |entries| => NameOf(entries[i]))
  }

  ghost predicate ValidNames<T>(names: seq<Option<T>>, managed: set<T>) {
    && (forall i :: 0 <= i < |names| ==> names[i].Some? && names[i].value !in managed)
    && (forall i, j :: 0 <= i < j < |names| ==> names[i] != names[j])
  }

  method CheckNames<T(==)>(names: seq<Option<T>>, managed: set<T>) returns (ok: bool)
    ensures ok <==> ValidNames(names, managed)
  {
    var seen: set<T> := {};
    for i := 0 to |names|
      invariant ValidNames(names[..i], managed)
      invariant forall x :: x in seen <==> Some(x) in names[..i]
    {
      if names[i].None? || names[i].value in managed { return false; }
      if names[i].value in seen {
        var j :| 0 <= j < i && names[..i][j] == names[i];
        return false;
      }
      TakeNext(names, i);
      seen := seen + {names[i].value};
    }
    TakeAll(names);
    ok := true;
  }

  /** `ValidateInfluxDBExtraConfig`. */
  method Validate(entries: seq<string>) returns (ok: bool)
    ensures ok <==> InfluxConfig.Valid(entries)
  {
    ok := CheckNames(Names(entries), MANAGED);
    NamesAreValid(entries, MANAGED);
  }

  lemma NamesDecide<T, K, N>(entries: seq<T>, key: T -> Option<K>, full: K -> N, names: seq<Option<N>>, managed: set<N>)
    requires |names| == |entries|
    requires forall i :: 0 <= i < |names| ==>
               names[i] == if key(entries[i]).Some? then Some(full(key(entries[i]).value)) else None
    ensures ValidNames(names, managed) <==>
      && (forall i :: 0 <= i < |entries| ==> key(entries[i]).Some? && full(key(entries[i]).value) !in managed)
      && (forall i, j :: 0 <= i < j < |entries| ==> full(key(entries[i]).value) != full(key(entries[j]).value))
  {
    if ValidNames(names, managed) {
      forall i, j | 0 <= i < j < |entries|
        ensures full(key(entries[i]).value) != full(key(entries[j]).value)
      {
        assert names[i] != names[j];
      }
    }
  }

  lemma NamesAreValid(entries: seq<string>, managed: set<string>)
    ensures ValidNames(Names(entries), managed) <==>
      && (forall i :: 0 <= i < |entries| ==> KeyOf(entries[i]).Some? && FullName(KeyOf(entries[i]).value) !in managed)
      && (forall i, j :: 0 <= i < j < |entries| ==> FullName(KeyOf(entries[i]).value) != FullName(KeyOf(entries[j]).value))
  {
    NamesDecide(entries, KeyOf, FullName, Names(entries), managed);
  }

  /** The new list to store, or `None` when an argument or the result is refused; the stored
      list itself is never written. */
  method ConfigSet(stored: seq<string>, args: seq<string>) returns (r: Option<seq<string>>)
    ensures r == if SetAll(stored, args).Some? && InfluxConfig.Valid(SetAll(stored, args).value)
                 then SetAll(stored, args) else None
  {
    var entries := new Entries(stored);
    for i := 0 to |args|
      invariant entries.Valid() && fresh(entries) && fresh(entries.data)
      invariant SetAll(entries.Contents(), args[i..]) == SetAll(stored, args)
    {
      var k := KeyOf(args[i]);
      assert args[i..][0] == args[i] && args[i..][1..] == args[i + 1..];
      if k.None? { return None; }
      entries.SetOption(k.value, args[i]);
    }
    var list := entries.data[..entries.len];
    var ok := Validate(list);
    r := if ok then Some(list) else None;
  }

  method ConfigUnset(stored: seq<string>, args: seq<string>) returns (r: Option<seq<string>>)
    ensures r == UnsetAll(stored, args)
  {
    var entries := new Entries(stored);
    for i := 0 to |args|
      invariant entries.Valid() && fresh(entries) && fresh(entries.data)
      invariant UnsetAll(entries.Contents(), args[i..]) == UnsetAll(stored, args)
    {
      var k := ArgKey(args[i]);
      assert args[i..][0] == args[i] && args[i..][1..] == args[i + 1..];
      if k.None? { return None; }
      var found := entries.UnsetKey(k.value);
      if !found { return None; }
    }
    r := Some(entries.data[..entries.len]);
  }
}
