/** The environment array of "NAME=value" strings (compat/setenv.c). */
module Environment {

  const NUL := 0 as char

  /** A cell of environ: the terminating null pointer, or the memory of a C string. */
  datatype Slot = Null | Buffer(bytes: seq<char>)

  /** The C string at the start of the given memory. */
  function CString(bytes: seq<char>): string {
    if bytes == [] || bytes[0] == NUL then "" else [bytes[0]] + CString(bytes[1..])
  }

  /** A name stops at its first '='. */
  function Key(name: string): string {
    if name == "" || name[0] == '=' then "" else [name[0]] + Key(name[1..])
  }

  /** A leading '=' of a value is skipped. */
  function Trimmed(value: string): string {
    if value != "" && value[0] == '=' then value[1..] else value
  }

  /** One leading '=' is dropped, and nothing else. */
  lemma TrimmedMeans(value: string)
    ensures Trimmed("=" + value) == value
    ensures (value == "" || value[0] != '=') ==> Trimmed(value) == value
  {
    assert ("=" + value)[1..] == value;
  }

  predicate Names(entry: string, key: string) {
    |key| < |entry| && entry[..|key|] == key && entry[|key|] == '='
  }

  lemma {:induction false} CStringSplit(s: string, rest: seq<char>)
    requires NUL !in s
    ensures CString(s + [NUL] + rest) == s
  {
    var m := s + [NUL] + rest;
    if s != "" {
      assert m[1..] == s[1..] + [NUL] + rest;
      CStringSplit(s[1..], rest);
    }
  }

  /** A terminated memory is its string, a NUL, and whatever follows. */
  lemma {:induction false} CStringShape(bytes: seq<char>)
    requires NUL in bytes
    ensures |CString(bytes)| < |bytes| && bytes[..|CString(bytes)|] == CString(bytes)
    ensures bytes[|CString(bytes)|] == NUL && NUL !in CString(bytes)
  {
    if bytes[0] != NUL {
      CStringShape(bytes[1..]);
      assert bytes == [bytes[0]] + bytes[1..];
    }
  }

  lemma {:induction false} KeyIs(name: string, len: nat)
    requires len <= |name| && '=' !in name[..len] && (len == |name| || name[len] == '=')
    ensures Key(name) == name[..len]
  {
    if len > 0 {
      assert name[0] in name[..len];
      assert name[1..][..len-1] == name[..len][1..];
      KeyIs(name[1..], len - 1);
    }
  }

  lemma {:induction false} KeyPlain(name: string)
    ensures '=' !in Key(name) && |Key(name)| <= |name| && name[..|Key(name)|] == Key(name)
  {
    if name != "" && name[0] != '=' {
      KeyPlain(name[1..]);
    }
  }

  // ----- the meaning of the array: a map in which the first match counts

  function Meaning(entries: seq<string>): map<string, string> {
    if entries == [] then map[]
    else
      var key, rest := Key(entries[0]), Meaning(entries[1..]);
      if |key| < |entries[0]| then rest[key := entries[0][|key|+1..]] else rest
  }

  function Without(entries: seq<string>, key: string): seq<string> {
    if entries == [] then []
    else (if Names(entries[0], key) then [] else [entries[0]]) + Without(entries[1..], key)
  }

  /** An entry names a key iff its text up to the first '=' is that key and there is an '='. */
  lemma NamesIsKey(entry: string, key: string)
    requires '=' !in key
    ensures Names(entry, key) <==> Key(entry) == key && |key| < |entry|
  {
    KeyPlain(entry);
    if Names(entry, key) {
      KeyIs(entry, |key|);
    }
    if Key(entry) == key && |key| < |entry| {
      StopsAtEquals(entry);
    }
  }

  lemma {:induction false} StopsAtEquals(entry: string)
    ensures |Key(entry)| <= |entry|
    ensures |Key(entry)| < |entry| ==> entry[|Key(entry)|] == '='
  {
    if entry != "" && entry[0] != '=' {
      StopsAtEquals(entry[1..]);
    }
  }

  /** The first entry naming the key gives its value. */
  lemma {:induction false} FirstMatch(entries: seq<string>, key: string, i: nat)
    requires '=' !in key && i < |entries| && Names(entries[i], key)
    requires forall j :: 0 <= j < i ==> !Names(entries[j], key)
    ensures key in Meaning(entries) && Meaning(entries)[key] == entries[i][|key|+1..]
  {
    NamesIsKey(entries[0], key);
    if i > 0 {
      FirstMatch(entries[1..], key, i - 1);
    }
  }

  lemma {:induction false} NoMatch(entries: seq<string>, key: string)
    requires '=' !in key && forall j :: 0 <= j < |entries| ==> !Names(entries[j], key)
    ensures key !in Meaning(entries)
  {
    if entries != [] {
      NamesIsKey(entries[0], key);
      NoMatch(entries[1..], key);
    }
  }

  lemma BoundEntry(key: string, value: string)
    requires '=' !in key
    ensures Key(key + "=" + value) == key && (key + "=" + value)[|key|+1..] == value
    ensures Names(key + "=" + value, key)
  {
    KeyIs(key + "=" + value, |key|);
  }

  /** Replacing the first match, or appending when there is none, updates the map at that key only. */
  lemma {:induction false} ReplaceMeaning(entries: seq<string>, key: string, value: string, i: nat)
    requires '=' !in key && i < |entries| && Names(entries[i], key)
    requires forall j :: 0 <= j < i ==> !Names(entries[j], key)
    ensures Meaning(entries[i := key + "=" + value]) == Meaning(entries)[key := value]
  {
    var after := entries[i := key + "=" + value];
    NamesIsKey(entries[0], key);
    BoundEntry(key, value);
    if i == 0 {
      assert after[1..] == entries[1..];
    } else {
      assert after[1..] == entries[1..][i-1 := key + "=" + value];
      ReplaceMeaning(entries[1..], key, value, i - 1);
    }
  }

  lemma {:induction false} AppendMeaning(entries: seq<string>, key: string, value: string)
    requires '=' !in key && forall j :: 0 <= j < |entries| ==> !Names(entries[j], key)
    ensures Meaning(entries + [key + "=" + value]) == Meaning(entries)[key := value]
  {
    var after := entries + [key + "=" + value];
    BoundEntry(key, value);
    if entries == [] {
      assert after[1..] == [] && Meaning(after[1..]) == map[];
    } else {
      NamesIsKey(entries[0], key);
      assert after[1..] == entries[1..] + [key + "=" + value];
      AppendMeaning(entries[1..], key, value);
    }
  }

  /** Dropping every entry of a key removes exactly that key from the map. */
  lemma {:induction false} WithoutMeaning(entries: seq<string>, key: string)
    requires '=' !in key
    ensures Meaning(Without(entries, key)) == Meaning(entries) - {key}
  {
    if entries != [] {
      WithoutMeaning(entries[1..], key);
      NamesIsKey(entries[0], key);
      var tail := Without(entries[1..], key);
      if !Names(entries[0], key) {
        assert ([entries[0]] + tail)[1..] == tail;
      } else {
        assert Without(entries, key) == tail;
      }
    }
  }

  lemma {:induction false} DropOne(entries: seq<string>, key: string, i: nat)
    requires i < |entries| && Names(entries[i], key)
    ensures Without(entries[..i] + entries[i+1..], key) == Without(entries, key)
  {
    var after := entries[..i] + entries[i+1..];
    if i == 0 {
      assert after == entries[1..];
    } else {
      assert after[1..] == entries[1..][..i-1] + entries[1..][i..];
      DropOne(entries[1..], key, i - 1);
    }
  }

  lemma {:induction false} NothingToDrop(entries: seq<string>, key: string)
    requires forall j :: 0 <= j < |entries| ==> !Names(entries[j], key)
    ensures Without(entries, key) == entries
  {
    if entries != [] {
      NothingToDrop(entries[1..], key);
    }
  }

  function Strings(slots: seq<Slot>): (entries: seq<string>)
    ensures |entries| == |slots|
  {
    seq(|slots|, i requires 0 <= i < |slots| => if slots[i].Null? then "" else CString(slots[i].bytes))
  }

  /** One slot closed up, the first n slots afterwards. */
  lemma StringsShifted(slots: seq<Slot>, slots': seq<Slot>, i: nat, n: nat)
    requires i <= n < |slots| == |slots'|
    requires forall j :: 0 <= j < i ==> slots'[j] == slots[j]
    requires forall j :: i <= j < n ==> slots'[j] == slots[j+1]
    ensures Strings(slots'[..n]) == Strings(slots[..n+1])[..i] + Strings(slots[..n+1])[i+1..]
  {
  }

  lemma StringsReplaced(slots: seq<Slot>, i: nat, n: nat, bytes: seq<char>)
    requires i < n <= |slots|
    ensures Strings(slots[i := Buffer(bytes)][..n]) == Strings(slots[..n])[i := CString(bytes)]
  {
  }

  lemma CStringIs(s: string, bytes: seq<char>)
    requires NUL !in s && s + [NUL] <= bytes
    ensures CString(bytes) == s
  {
    CStringSplit(s, bytes[|s|+1..]);
    assert bytes == s + [NUL] + bytes[|s|+1..];
  }

  // ----- the functions

  /** The comparison of __findenv's inner loop, on the memory of one entry. */
  method Compare(bytes: seq<char>, name: string, len: nat) returns (matched: bool, cp: nat)
    requires NUL in bytes && NUL !in name && len <= |name|
    ensures matched <==> Names(CString(bytes), name[..len])
    ensures matched ==> cp == len + 1
  {
    CStringShape(bytes);
    ghost var entry := CString(bytes);
    cp := 0;
    var i := len;
    while i > 0 && bytes[cp] != NUL
      invariant 0 <= i && cp + i == len && cp <= |entry|
      invariant entry[..cp] == name[..cp]
    {
      assert cp < |entry| && entry[cp] == bytes[cp] by { assert entry[cp] == bytes[..|entry|][cp]; }
      if bytes[cp] != name[cp] {
        assert entry[cp] != name[..len][cp];
        return false, cp + 1;
      }
      cp, i := cp + 1, i - 1;
    }
    matched := i == 0 && bytes[cp] == '=';
    if cp < |entry| {
      assert entry[cp] == bytes[..|entry|][cp];
    }
    cp := cp + 1;
  }

  /** Copying value and its NUL over the memory from `at` on. */
  method Overwrite(bytes: seq<char>, at: nat, value: string) returns (after: seq<char>)
    requires at + |value| < |bytes|
    ensures after == bytes[..at] + value + [NUL] + bytes[at + |value| + 1..]
  {
    after := bytes;
    var k := 0;
    while k < |value|
      invariant k <= |value| && after == bytes[..at] + value[..k] + bytes[at + k..]
    {
      after := after[at + k := value[k]];
      k := k + 1;
    }
    assert value[..k] == value;
    after := after[at + k := NUL];
  }

  /** The memory of a new entry: the name up to '=', an '=', the value, a NUL. */
  method NewEntry(name: string, value: string) returns (bytes: seq<char>)
    ensures bytes == Key(name) + "=" + value + [NUL]
  {
    bytes := [];
    var c := 0;
    while c < |name| && name[c] != '='
      invariant c <= |name| && bytes == name[..c] && '=' !in bytes
    {
      bytes := bytes + [name[c]];
      c := c + 1;
    }
    KeyIs(name, c);
    bytes := bytes + "=";
    var v := 0;
    while v < |value|
      invariant v <= |value| && bytes == Key(name) + "=" + value[..v]
    {
      bytes := bytes + [value[v]];
      v := v + 1;
    }
    assert value[..v] == value;
    bytes := bytes + [NUL];
  }

  class Environ {
    var environ: array<Slot>
    ghost var count: nat

    ghost predicate Valid()
      reads this, environ
    {
      && count < environ.Length && environ[count] == Null
      && forall i :: 0 <= i < count ==> environ[i].Buffer? && NUL in environ[i].bytes
    }

    ghost function Contents(): (entries: seq<string>)
      reads this, environ
      requires Valid()
      ensures |entries| == count
    {
      Strings(environ[..count])
    }

    /** An empty environment. */
    constructor ()
      ensures Valid() && Contents() == [] && fresh(environ)
    {
      environ := new Slot[1](_ => Null);
      count := 0;
    }

    /** The first entry of that name, with the position of its value. */
    method FindEnv(name: string) returns (found: bool, offset: nat, cp: nat)
      requires Valid() && NUL !in name
      ensures found <==> Key(name) in Meaning(Contents())
      ensures found ==> offset < count && Names(Contents()[offset], Key(name)) && cp == |Key(name)| + 1
      ensures found ==> Meaning(Contents())[Key(name)] == Contents()[offset][cp..]
      ensures found ==> forall j :: 0 <= j < offset ==> !Names(Contents()[j], Key(name))
      ensures !found ==> forall j :: 0 <= j < count ==> !Names(Contents()[j], Key(name))
    {
      var len := 0;
      while len < |name| && name[len] != '='
        invariant len <= |name| && '=' !in name[..len]
      {
        len := len + 1;
      }
      KeyIs(name, len);
      found, offset, cp := false, 0, 0;
      var p := 0;
      while environ[p] != Null
        invariant p <= count
        invariant forall j :: 0 <= j < p ==> !Names(Contents()[j], Key(name))
        decreases count - p
      {
        found, cp := Compare(environ[p].bytes, name, len);
        if found {
          offset := p;
          FirstMatch(Contents(), Key(name), p);
          return;
        }
        p := p + 1;
      }
      found := false;
      NoMatch(Contents(), Key(name));
    }

    /** setenv. Without rewrite an existing binding stays; otherwise the array means the old map
        with the name bound to the value, and only the entry of that name has changed. */
    method SetEnv(name: string, value: string, rewrite: bool)
      requires Valid() && NUL !in name && NUL !in value
      modifies this, environ
      ensures Valid()
      ensures Key(name) in Meaning(old(Contents())) && !rewrite ==> Contents() == old(Contents())
      ensures Key(name) !in Meaning(old(Contents())) || rewrite ==>
                Meaning(Contents()) == Meaning(old(Contents()))[Key(name) := Trimmed(value)]
      ensures Key(name) in Meaning(old(Contents())) ==>
                count == old(count)
                && forall i :: 0 <= i < count && Contents()[i] != old(Contents())[i] ==>
                     Names(old(Contents())[i], Key(name))
                     && forall j :: 0 <= j < i ==> !Names(old(Contents())[j], Key(name))
      ensures Key(name) !in Meaning(old(Contents())) ==>
                Contents() == old(Contents()) + [Key(name) + "=" + Trimmed(value)]
    {
      ghost var before := Contents();
      var v := if |value| > 0 && value[0] == '=' then value[1..] else value;
      KeyPlain(name);
      var found, offset, cp := FindEnv(name);
      if found && !rewrite {
        return;
      }
      if found {
        ReplaceMeaning(before, Key(name), v, offset);
        Rebind(name, v, offset, cp);
        return;
      }
      AppendMeaning(before, Key(name), v);
      AddSlot(name, v);
    }

    /** The entry at offset gets the new value: in place if it fits, in fresh memory otherwise. */
    method Rebind(name: string, v: string, offset: nat, cp: nat)
      requires Valid() && NUL !in name && NUL !in v
      requires offset < count && Names(Contents()[offset], Key(name)) && cp == |Key(name)| + 1
      modifies environ
      ensures Valid()
      ensures Contents() == old(Contents())[offset := Key(name) + "=" + v]
      ensures |old(Contents()[offset])| >= cp + |v| ==>
                |environ[offset].bytes| == old(|environ[offset].bytes|)
    {
      ghost var slots := environ[..];
      var bytes := environ[offset].bytes;
      ghost var entry := CString(bytes);
      CStringShape(bytes);
      KeyPlain(name);
      ghost var now := Key(name) + "=" + v;
      assert NUL !in now by { assert forall c :: c in Key(name) ==> c in name; }
      assert bytes[..cp] == Key(name) + "=" by {
        assert bytes[..cp] == bytes[..|entry|][..cp];
        assert entry[..cp] == entry[..cp-1] + [entry[cp-1]];
      }
      var room := StringLength(bytes, cp);
      assert room == |entry| - cp;
      if room >= |v| {
        bytes := Overwrite(bytes, cp, v);
        assert bytes == now + [NUL] + old(environ[offset].bytes)[cp + |v| + 1..];
      } else {
        bytes := NewEntry(name, v);
        assert bytes == now + [NUL] + [];
      }
      environ[offset] := Buffer(bytes);
      assert NUL in bytes by { CStringNul(now, bytes); }
      CStringIs(now, bytes);
      StringsReplaced(slots, offset, count, bytes);
      assert environ[..] == slots[offset := Buffer(bytes)];
    }

    /** A new slot in a reallocated array. */
    method AddSlot(name: string, v: string)
      requires Valid() && NUL !in name && NUL !in v
      modifies this
      ensures Valid() && fresh(environ)
      ensures Contents() == old(Contents()) + [Key(name) + "=" + v]
    {
      ghost var before := Contents();
      var cnt := 0;
      while environ[cnt] != Null
        invariant cnt <= count
        decreases count - cnt
      {
        cnt := cnt + 1;
      }
      var p := new Slot[cnt + 2](_ => Null);
      forall i | 0 <= i < cnt {
        p[i] := environ[i];
      }
      var bytes := NewEntry(name, v);
      KeyPlain(name);
      ghost var now := Key(name) + "=" + v;
      assert NUL !in now by { assert forall c :: c in Key(name) ==> c in name; }
      CStringSplit(now, []);
      assert bytes == now + [NUL] + [];
      p[cnt] := Buffer(bytes);
      environ := p;
      count := cnt + 1;
      assert Contents() == before + [now];
    }

    /** unsetenv: exactly the entries of other names are left, in their order. */
    method UnsetEnv(name: string)
      requires Valid() && NUL !in name
      modifies this`count, environ
      ensures environ == old(environ) && Valid() && Contents() == Without(old(Contents()), Key(name))
      ensures Meaning(Contents()) == Meaning(old(Contents())) - {Key(name)}
    {
      KeyPlain(name);
      WithoutMeaning(Contents(), Key(name));
      var found, offset: nat, cp := FindEnv(name);
      while found
        invariant Valid() && environ == old(environ)
        invariant found ==> offset < count && Names(Contents()[offset], Key(name))
        invariant !found ==> forall j :: 0 <= j < count ==> !Names(Contents()[j], Key(name))
        invariant Without(Contents(), Key(name)) == Without(old(Contents()), Key(name))
        decreases count
      {
        DropOne(Contents(), Key(name), offset);
        ShiftDown(offset);
        found, offset, cp := FindEnv(name);
      }
      NothingToDrop(Contents(), Key(name));
    }

    /** The shift that closes the gap, up to and including the null pointer. */
    method ShiftDown(offset: nat)
      requires Valid() && offset < count
      modifies this`count, environ
      ensures environ == old(environ) && Valid() && count == old(count) - 1
      ensures Contents() == old(Contents())[..offset] + old(Contents())[offset+1..]
    {
      ghost var before := environ[..];
      var p := offset;
      while true
        invariant environ == old(environ) && count == old(count) && offset <= p < count
        invariant before == old(environ[..]) && before[count] == Null
        invariant forall i :: 0 <= i < offset ==> environ[i] == before[i]
        invariant forall i :: offset <= i < p ==> environ[i] == before[i+1]
        invariant environ[p..] == before[p..]
        decreases count - p
      {
        assert environ[p + 1] == before[p + 1];
        environ[p] := environ[p + 1];
        if environ[p] == Null {
          break;
        }
        p := p + 1;
      }
      count := count - 1;
      StringsShifted(before, environ[..], offset, count);
    }
  }

  /** strlen of the string starting at position from. */
  method StringLength(bytes: seq<char>, from: nat) returns (n: nat)
    requires NUL in bytes && from <= |CString(bytes)|
    ensures n == |CString(bytes)| - from
  {
    CStringShape(bytes);
    n := 0;
    while bytes[from + n] != NUL
      invariant from + n <= |CString(bytes)|
      decreases |CString(bytes)| - n
    {
      n := n + 1;
    }
  }

  lemma CStringNul(s: string, bytes: seq<char>)
    requires s + [NUL] <= bytes
    ensures NUL in bytes
  {
    assert bytes[|s|] == NUL;
  }
}
