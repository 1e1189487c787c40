/**
 * The browser cookie jar and the helpers of src/utils/cookies.ts.
 *
 * The jar holds cookies in creation order with distinct names; `ToMap` is its
 * map view and `Serialize` is what `document.cookie` reads back: the
 * `name=value` pairs joined by "; " (the serialisation of section 5.4 of
 * RFC 6265). A write to `document.cookie` is a `CookieWrite` value; `RenderWrite`
 * gives the exact assignment string and `Apply` what the browser does with it.
 * `ReadCookie` is the split logic of `getAuthToken` and `getUserSession`, and
 * `ReadSerialized` proves it recovers exactly the map view.
 */
module Cookies {
  import opened Wrappers
  import opened Text
  import opened AuthTypes

  const TOKEN_COOKIE: string := "access_token"
  const USER_COOKIE: string := "user_session"
  /** Seven days, in seconds. */
  const MAX_AGE: nat := 60 * 60 * 24 * 7
  /** The date the source writes to expire a cookie; it lies before any current time. */
  const EPOCH: string := "Thu, 01 Jan 1970 00:00:00 UTC"

  datatype Cookie = Cookie(name: string, value: string)

  /** A name the jar can hold and the reader can look up. */
  predicate ValidName(n: string) {
    n != "" && ';' !in n && '=' !in n
  }

  /** Values never contain ';': the browser cuts an assigned value at the first one. */
  predicate ValidValue(v: string) {
    ';' !in v
  }

  predicate WellFormed(entries: seq<Cookie>) {
    forall i :: 0 <= i < |entries| ==> ValidName(entries[i].name) && ValidValue(entries[i].value)
  }

  predicate UniqueNames(entries: seq<Cookie>) {
    forall i, j :: 0 <= i < j < |entries| ==> entries[i].name != entries[j].name
  }

  /** The jar as a map from name to value (the first entry of a name wins). */
  function ToMap(entries: seq<Cookie>): map<string, string> {
    if entries == [] then map[] else ToMap(entries[1..])[entries[0].name := entries[0].value]
  }

  /** `document.cookie`: the pairs `name=value` joined by "; ". */
  function Serialize(entries: seq<Cookie>): string {
    if entries == [] then ""
    else if |entries| == 1 then entries[0].name + "=" + entries[0].value
    else entries[0].name + "=" + entries[0].value + "; " + Serialize(entries[1..])
  }

  // ---------------------------------------------------------------------------
  // Writing: `document.cookie = "..."`

  datatype Attribute = MaxAge(seconds: nat) | Expires(date: string) | Path(path: string) | SameSite(policy: string) | Secure

  datatype CookieWrite = CookieWrite(name: string, value: string, attributes: seq<Attribute>)

  function RenderAttribute(a: Attribute): string {
    match a
    case MaxAge(s) => "Max-Age=" + NatToString(s)
    case Expires(d) => "expires=" + d
    case Path(p) => "Path=" + p
    case SameSite(p) => "SameSite=" + p
    case Secure => "Secure"
  }

  function RenderAttributes(attrs: seq<Attribute>): string {
    if attrs == [] then "" else "; " + RenderAttribute(attrs[0]) + RenderAttributes(attrs[1..])
  }

  /** The string assigned to `document.cookie`. */
  function RenderWrite(w: CookieWrite): string {
    w.name + "=" + w.value + RenderAttributes(w.attributes)
  }

  /** The value of the last `Max-Age` attribute, which decides expiry when present. */
  function LastMaxAge(attrs: seq<Attribute>): Option<nat> {
    if attrs == [] then None
    else match LastMaxAge(attrs[1..])
      case Some(s) => Some(s)
      case None => if attrs[0].MaxAge? then Some(attrs[0].seconds) else None
  }

  /**
   * A write expires its cookie when its last `Max-Age` is 0, or, without
   * `Max-Age`, when it carries the 1970 `expires` date.
   */
  predicate Deletes(w: CookieWrite) {
    match LastMaxAge(w.attributes)
    case Some(s) => s == 0
    case None => Expires(EPOCH) in w.attributes
  }

  /** Store `c`, replacing the cookie of the same name in place or appending it. */
  function Put(entries: seq<Cookie>, c: Cookie): seq<Cookie> {
    if entries == [] then [c]
    else if entries[0].name == c.name then [c] + entries[1..]
    else [entries[0]] + Put(entries[1..], c)
  }

  /** Drop every cookie called `name`. */
  function Remove(entries: seq<Cookie>, name: string): seq<Cookie> {
    if entries == [] then []
    else if entries[0].name == name then Remove(entries[1..], name)
    else [entries[0]] + Remove(entries[1..], name)
  }

  /** Space and horizontal tab, the white space a browser strips around a cookie value. */
  predicate IsWsp(c: char) {
    c == ' ' || c == '\t'
  }

  /** No white space at either end. */
  predicate Trimmed(s: string) {
    s == [] || (!IsWsp(s[0]) && !IsWsp(s[|s| - 1]))
  }

  function TrimStart(s: string): (r: string)
    ensures |r| <= |s| && r == s[|s| - |r|..]
    ensures r == [] || !IsWsp(r[0])
    ensures s == [] || !IsWsp(s[0]) ==> r == s
  {
    if s != [] && IsWsp(s[0]) then TrimStart(s[1..]) else s
  }

  function TrimEnd(s: string): (r: string)
    ensures |r| <= |s| && r == s[..|r|]
    ensures r == [] || !IsWsp(r[|r| - 1])
    ensures s == [] || !IsWsp(s[|s| - 1]) ==> r == s
  {
    if s != [] && IsWsp(s[|s| - 1]) then TrimEnd(s[..|s| - 1]) else s
  }

  /** The value with its leading and trailing white space removed. */
  function Trim(s: string): (r: string)
    ensures Trimmed(r)
    ensures forall i :: 0 <= i < |r| ==> r[i] in s
    ensures Trimmed(s) ==> r == s
  {
    var t := TrimStart(s);
    var r := TrimEnd(t);
    SliceOfSuffix(s, t, r);
    r
  }

  /** A prefix of a suffix of `s` holds only characters of `s`, and starts where the suffix does. */
  lemma SliceOfSuffix(s: string, t: string, r: string)
    requires |t| <= |s| && t == s[|s| - |t|..]
    requires |r| <= |t| && r == t[..|r|]
    ensures forall i :: 0 <= i < |r| ==> r[i] in s
    ensures r != [] ==> r[0] == t[0]
  {
    forall i | 0 <= i < |r| ensures r[i] in s {
      assert r[i] == t[i] == s[|s| - |t| + i];
    }
  }

  /** A value without `;` is its own part before the first `;`. */
  lemma NoSemicolonKept(v: string)
    ensures ';' !in v ==> Split(v, ";")[0] == v
  {
    assert ";" == [';'];
    SplitHead(v, ';');
    if ';' !in v {
      FirstIndexOfNone(v, ';');
    }
  }

  /**
   * The value the browser stores for an assigned one (sections 5.2 and 5.3
   * of RFC 6265): the text before the first ';', without its surrounding
   * white space.
   */
  function StoredValue(v: string): (r: string)
    ensures ValidValue(r) && Trimmed(r)
    ensures ';' !in v && Trimmed(v) ==> r == v
  {
    SplitPartsFree(v, ";");
    FreeOfChar(Split(v, ";")[0], ';');
    NoSemicolonKept(v);
    Trim(Split(v, ";")[0])
  }

  /** What the browser does with an assignment: delete the cookie, or store its value. */
  function Apply(entries: seq<Cookie>, w: CookieWrite): seq<Cookie> {
    if Deletes(w) then Remove(entries, w.name)
    else Put(entries, Cookie(w.name, StoredValue(w.value)))
  }

  lemma {:induction false} PutMap(entries: seq<Cookie>, c: Cookie)
    ensures ToMap(Put(entries, c)) == ToMap(entries)[c.name := c.value]
  {
    if entries == [] {
    } else if entries[0].name == c.name {
      assert ([c] + entries[1..])[1..] == entries[1..];
    } else {
      PutMap(entries[1..], c);
      assert ([entries[0]] + Put(entries[1..], c))[1..] == Put(entries[1..], c);
    }
  }

  lemma PutValid(entries: seq<Cookie>, c: Cookie)
    requires WellFormed(entries) && UniqueNames(entries)
    requires ValidName(c.name) && ValidValue(c.value)
    ensures WellFormed(Put(entries, c)) && UniqueNames(Put(entries, c))
    ensures forall i :: 0 <= i < |Put(entries, c)| ==> Put(entries, c)[i].name in NamesOf(entries) + {c.name}
  {
    PutNames(entries, c);
    PutWellFormed(entries, c);
    PutUnique(entries, c);
  }

  lemma {:induction false} PutNames(entries: seq<Cookie>, c: Cookie)
    ensures forall i :: 0 <= i < |Put(entries, c)| ==> Put(entries, c)[i].name in NamesOf(entries) + {c.name}
  {
    if entries == [] {
    } else if entries[0].name == c.name {
      var r := [c] + entries[1..];
      forall i | 1 <= i < |r| ensures r[i].name in NamesOf(entries) {
        assert r[i] == entries[i];
      }
    } else {
      PutNames(entries[1..], c);
      var rest := Put(entries[1..], c);
      var r := [entries[0]] + rest;
      forall i | 1 <= i < |r| ensures r[i].name in NamesOf(entries) + {c.name} {
        assert r[i] == rest[i - 1];
        if r[i].name != c.name {
          var k :| 0 <= k < |entries[1..]| && entries[1..][k].name == r[i].name;
          assert entries[k + 1] == entries[1..][k];
        }
      }
    }
  }

  lemma {:induction false} PutWellFormed(entries: seq<Cookie>, c: Cookie)
    requires WellFormed(entries) && ValidName(c.name) && ValidValue(c.value)
    ensures WellFormed(Put(entries, c))
  {
    if entries == [] {
    } else if entries[0].name == c.name {
      var r := [c] + entries[1..];
      forall i | 1 <= i < |r| ensures ValidName(r[i].name) && ValidValue(r[i].value) {
        assert r[i] == entries[i];
      }
    } else {
      assert WellFormed(entries[1..]) by {
        forall k | 0 <= k < |entries[1..]| ensures ValidName(entries[1..][k].name) && ValidValue(entries[1..][k].value) {
          assert entries[1..][k] == entries[k + 1];
        }
      }
      PutWellFormed(entries[1..], c);
      var rest := Put(entries[1..], c);
      var r := [entries[0]] + rest;
      forall i | 1 <= i < |r| ensures ValidName(r[i].name) && ValidValue(r[i].value) {
        assert r[i] == rest[i - 1];
      }
    }
  }

  lemma {:induction false} PutUnique(entries: seq<Cookie>, c: Cookie)
    requires UniqueNames(entries)
    ensures UniqueNames(Put(entries, c))
  {
    if entries == [] {
    } else if entries[0].name == c.name {
      var r := [c] + entries[1..];
      forall i, j | 0 <= i < j < |r| ensures r[i].name != r[j].name {
        assert r[j] == entries[j];
        if i > 0 { assert r[i] == entries[i]; }
      }
    } else {
      assert UniqueNames(entries[1..]) by {
        forall a, b | 0 <= a < b < |entries[1..]| ensures entries[1..][a].name != entries[1..][b].name {
          assert entries[1..][a] == entries[a + 1] && entries[1..][b] == entries[b + 1];
        }
      }
      PutUnique(entries[1..], c);
      PutNames(entries[1..], c);
      var rest := Put(entries[1..], c);
      var r := [entries[0]] + rest;
      forall i, j | 0 <= i < j < |r| ensures r[i].name != r[j].name {
        assert r[j] == rest[j - 1];
        if i > 0 {
          assert r[i] == rest[i - 1];
        } else if r[j].name != c.name {
          var k :| 0 <= k < |entries[1..]| && entries[1..][k].name == r[j].name;
          assert entries[k + 1] == entries[1..][k];
        }
      }
    }
  }

  /** The names in an entry list. */
  function NamesOf(entries: seq<Cookie>): (names: set<string>)
    ensures forall i :: 0 <= i < |entries| ==> entries[i].name in names
    ensures forall n :: n in names ==> exists i :: 0 <= i < |entries| && entries[i].name == n
  {
    set i | 0 <= i < |entries| :: entries[i].name
  }

  lemma {:induction false} RemoveMap(entries: seq<Cookie>, name: string)
    ensures ToMap(Remove(entries, name)) == ToMap(entries) - {name}
  {
    if entries == [] {
    } else if entries[0].name == name {
      RemoveMap(entries[1..], name);
    } else {
      RemoveMap(entries[1..], name);
      assert ([entries[0]] + Remove(entries[1..], name))[1..] == Remove(entries[1..], name);
    }
  }

  lemma RemoveValid(entries: seq<Cookie>, name: string)
    requires WellFormed(entries) && UniqueNames(entries)
    ensures WellFormed(Remove(entries, name)) && UniqueNames(Remove(entries, name))
    ensures NamesOf(Remove(entries, name)) <= NamesOf(entries)
  {
    RemoveKeeps(entries, name);
    RemoveUnique(entries, name);
  }

  /** Every entry left by `Remove` is an entry of the original list. */
  lemma {:induction false} RemoveKeeps(entries: seq<Cookie>, name: string)
    ensures forall i :: 0 <= i < |Remove(entries, name)| ==> Remove(entries, name)[i] in entries
  {
    if entries != [] {
      RemoveKeeps(entries[1..], name);
      var rest := Remove(entries[1..], name);
      forall i | 0 <= i < |rest| ensures rest[i] in entries {
        assert rest[i] in entries[1..];
      }
    }
  }

  lemma {:induction false} RemoveUnique(entries: seq<Cookie>, name: string)
    requires UniqueNames(entries)
    ensures UniqueNames(Remove(entries, name))
  {
    if entries != [] {
      assert UniqueNames(entries[1..]) by {
        forall a, b | 0 <= a < b < |entries[1..]| ensures entries[1..][a].name != entries[1..][b].name {
          assert entries[1..][a] == entries[a + 1] && entries[1..][b] == entries[b + 1];
        }
      }
      RemoveUnique(entries[1..], name);
      if entries[0].name != name {
        RemoveKeeps(entries[1..], name);
        var rest := Remove(entries[1..], name);
        var r := [entries[0]] + rest;
        forall i, j | 0 <= i < j < |r| ensures r[i].name != r[j].name {
          assert r[j] == rest[j - 1];
          if i > 0 {
            assert r[i] == rest[i - 1];
          } else {
            var k :| 0 <= k < |entries[1..]| && entries[1..][k] == r[j];
            assert entries[k + 1] == entries[1..][k];
          }
        }
      }
    }
  }

  /** Applying a write to the jar updates its map view exactly. */
  lemma ApplyMap(entries: seq<Cookie>, w: CookieWrite)
    requires WellFormed(entries) && UniqueNames(entries) && ValidName(w.name)
    ensures WellFormed(Apply(entries, w)) && UniqueNames(Apply(entries, w))
    ensures ToMap(Apply(entries, w)) ==
      if Deletes(w) then ToMap(entries) - {w.name}
      else ToMap(entries)[w.name := StoredValue(w.value)]
  {
    if Deletes(w) {
      RemoveMap(entries, w.name);
      RemoveValid(entries, w.name);
    } else {
      var v := StoredValue(w.value);
      PutMap(entries, Cookie(w.name, v));
      PutValid(entries, Cookie(w.name, v));
    }
  }

  /** Being free of the one-character separator `[c]` means not containing `c`. */
  lemma FreeOfChar(s: string, c: char)
    requires Free(s, [c])
    ensures c !in s
  {
    forall i | 0 <= i < |s| ensures s[i] != c {
      assert !MatchAt(s, [c], i);
      assert s[i..i + 1] == [s[i]];
    }
  }

  // ---------------------------------------------------------------------------
  // Reading: the split logic of getAuthToken and getUserSession

  /** The separator the readers split on. */
  function Sep(name: string): string {
    "; " + name + "="
  }

  /**
   * `('; ' + cookie).split('; ' + name + '=')`: a value only when there are
   * exactly two parts; then the second part up to its first ';', and no value
   * when that is empty.
   */
  function ReadCookie(cookie: string, name: string): (r: Option<string>)
    requires name != ""
    ensures r.Some? ==> r.value != "" && ';' !in r.value
  {
    var parts := Split("; " + cookie, Sep(name));
    if |parts| == 2 then
      SplitPartsFree(parts[1], ";");
      FreeOfChar(Split(parts[1], ";")[0], ';');
      var v := Split(parts[1], ";")[0];
      if v == "" then None else Some(v)
    else None
  }

  function Entry(c: Cookie): string {
    "; " + c.name + "=" + c.value
  }

  /** `"; " + document.cookie` for a non-empty jar, entry by entry. */
  function Prefixed(entries: seq<Cookie>): string {
    if entries == [] then "" else Entry(entries[0]) + Prefixed(entries[1..])
  }

  function Count(entries: seq<Cookie>, name: string): nat {
    if entries == [] then 0
    else (if entries[0].name == name then 1 else 0) + Count(entries[1..], name)
  }

  /** The value of the first cookie called `name`. */
  function Lookup(entries: seq<Cookie>, name: string): Option<string> {
    if entries == [] then None
    else if entries[0].name == name then Some(entries[0].value)
    else Lookup(entries[1..], name)
  }

  /** What follows the first cookie called `name` in `Prefixed`. */
  function After(entries: seq<Cookie>, name: string): string {
    if entries == [] then ""
    else if entries[0].name == name then Prefixed(entries[1..])
    else After(entries[1..], name)
  }

  lemma {:induction false} SerializePrefixed(entries: seq<Cookie>)
    requires entries != []
    ensures "; " + Serialize(entries) == Prefixed(entries)
  {
    if |entries| > 1 {
      SerializePrefixed(entries[1..]);
    }
  }

  /** Another cookie's entry holds no occurrence of `Sep(name)` that starts inside it. */
  lemma EntryNoMatch(c: Cookie, name: string, t: string, j: nat)
    requires ValidName(c.name) && ValidValue(c.value) && ValidName(name) && c.name != name
    requires j < |Entry(c)|
    ensures !MatchAt(Entry(c) + t, Sep(name), j)
  {
    var s := Entry(c) + t;
    var sep := Sep(name);
    var n := c.name;
    if j + |sep| <= |s| {
      var w := s[j..j + |sep|];
      if j == 0 {
        if |n| < |name| {
          assert s[2 + |n|] == '=';
          assert name[|n|] != '=' by { assert name[|n|] in name; }
          assert w[2 + |n|] != sep[2 + |n|];
        } else if |n| > |name| {
          assert s[2 + |name|] == n[|name|];
          assert n[|name|] != '=' by { assert n[|name|] in n; }
          assert w[2 + |name|] != sep[2 + |name|];
        } else {
          assert w[2..2 + |n|] == n;
          assert sep[2..2 + |n|] == name;
        }
      } else {
        assert s[j] != ';' by {
          if j == 1 {
          } else if j < 2 + |n| {
            assert s[j] == n[j - 2];
            assert n[j - 2] in n;
          } else if j == 2 + |n| {
          } else {
            assert s[j] == c.value[j - 3 - |n|];
            assert c.value[j - 3 - |n|] in c.value;
          }
        }
        assert w[0] != sep[0];
      }
    }
  }

  /** A value free of ';' holds no occurrence of a separator beginning with ';'. */
  lemma ValueNoMatch(v: string, t: string, sep: string, j: nat)
    requires ValidValue(v) && sep != "" && sep[0] == ';' && j < |v|
    ensures !MatchAt(v + t, sep, j)
  {
    if j + |sep| <= |v + t| {
      assert (v + t)[j] == v[j];
      assert v[j] in v;
      assert (v + t)[j..j + |sep|][0] != sep[0];
    }
  }

  /**
   * Splitting `Prefixed(entries)` at `Sep(name)` cuts once per cookie called
   * `name`; with none there is one part, and with exactly one the second part
   * is its value followed by the entries after it.
   */
  lemma {:induction false} SplitPrefixed(entries: seq<Cookie>, name: string)
    requires WellFormed(entries) && ValidName(name)
    ensures |Split(Prefixed(entries), Sep(name))| == 1 + Count(entries, name)
    ensures Count(entries, name) == 0 ==> Split(Prefixed(entries), Sep(name)) == [Prefixed(entries)]
    ensures Count(entries, name) == 1 ==>
      Lookup(entries, name).Some? &&
      Split(Prefixed(entries), Sep(name))[1] == Lookup(entries, name).value + After(entries, name)
  {
    var sep := Sep(name);
    if entries == [] {
    } else {
      var c := entries[0];
      var rest := entries[1..];
      var e := Entry(c);
      var s := Prefixed(entries);
      assert s == e + Prefixed(rest);
      assert WellFormed(rest) by {
        forall i | 0 <= i < |rest| ensures ValidName(rest[i].name) && ValidValue(rest[i].value) {
          assert rest[i] == entries[i + 1];
        }
      }
      assert ValidName(c.name) && ValidValue(c.value) by { assert c == entries[0]; }
      SplitPrefixed(rest, name);
      var r := Split(Prefixed(rest), sep);
      if c.name == name {
        assert e == sep + c.value;
        assert MatchAt(s, sep, 0) by { assert s[..|sep|] == sep; }
        SplitAtFront(s, sep);
        var u := s[|sep|..];
        assert u == c.value + Prefixed(rest);
        forall j: nat | j < |c.value| ensures !MatchAt(u, sep, j) {
          ValueNoMatch(c.value, Prefixed(rest), sep, j);
        }
        SplitSkip(u, sep, |c.value|);
        assert u[..|c.value|] == c.value && u[|c.value|..] == Prefixed(rest);
        assert Split(s, sep) == [""] + ([c.value + r[0]] + r[1..]);
      } else {
        forall j: nat | j < |e| ensures !MatchAt(s, sep, j) {
          EntryNoMatch(c, name, Prefixed(rest), j);
        }
        SplitSkip(s, sep, |e|);
        assert s[..|e|] == e && s[|e|..] == Prefixed(rest);
        assert Split(s, sep) == [e + r[0]] + r[1..];
      }
    }
  }

  /** `Prefixed` is empty or starts with ';'. */
  lemma PrefixedStart(entries: seq<Cookie>)
    ensures Prefixed(entries) == "" || Prefixed(entries)[0] == ';'
  {
    if entries != [] {
      assert Prefixed(entries) == Entry(entries[0]) + Prefixed(entries[1..]);
    }
  }

  lemma {:induction false} AfterStart(entries: seq<Cookie>, name: string)
    ensures After(entries, name) == "" || After(entries, name)[0] == ';'
  {
    if entries != [] {
      if entries[0].name == name {
        PrefixedStart(entries[1..]);
      } else {
        AfterStart(entries[1..], name);
      }
    }
  }

  lemma {:induction false} LookupWellFormed(entries: seq<Cookie>, name: string)
    requires WellFormed(entries)
    ensures Lookup(entries, name).Some? ==> ValidValue(Lookup(entries, name).value)
  {
    if entries != [] && entries[0].name != name {
      assert WellFormed(entries[1..]) by {
        forall i | 0 <= i < |entries| - 1 ensures ValidName(entries[1..][i].name) && ValidValue(entries[1..][i].value) {
          assert entries[1..][i] == entries[i + 1];
        }
      }
      LookupWellFormed(entries[1..], name);
    }
  }

  /** With distinct names, the first entry's value is the map's value. */
  lemma {:induction false} LookupMap(entries: seq<Cookie>, name: string)
    requires UniqueNames(entries)
    ensures Count(entries, name) <= 1
    ensures (Count(entries, name) == 1) == (name in ToMap(entries))
    ensures name in ToMap(entries) ==> Lookup(entries, name) == Some(ToMap(entries)[name])
  {
    if entries != [] {
      var rest := entries[1..];
      assert UniqueNames(rest) by {
        forall i, j | 0 <= i < j < |rest| ensures rest[i].name != rest[j].name {
          assert rest[i] == entries[i + 1] && rest[j] == entries[j + 1];
        }
      }
      LookupMap(rest, name);
      if entries[0].name == name {
        NotInRest(entries, rest, name);
      }
    }
  }

  lemma NotInRest(entries: seq<Cookie>, rest: seq<Cookie>, name: string)
    requires UniqueNames(entries) && entries != [] && rest == entries[1..] && entries[0].name == name
    ensures Count(rest, name) == 0
  {
    CountZero(rest, name);
    forall i | 0 <= i < |rest| ensures rest[i].name != name {
      assert rest[i] == entries[i + 1];
    }
  }

  lemma {:induction false} CountZero(entries: seq<Cookie>, name: string)
    ensures (Count(entries, name) == 0) == (forall i :: 0 <= i < |entries| ==> entries[i].name != name)
  {
    if entries != [] {
      CountZero(entries[1..], name);
      if Count(entries[1..], name) == 0 {
        forall i | 1 <= i < |entries| ensures entries[i].name != name {
          assert entries[i] == entries[1..][i - 1];
        }
      } else {
        var k :| 0 <= k < |entries[1..]| && entries[1..][k].name == name;
        assert entries[k + 1].name == name;
      }
    }
  }

  /**
   * The reader recovers the jar: reading `name` back from `document.cookie`
   * gives its value exactly when the jar holds a non-empty value for it.
   */
  lemma ReadSerialized(entries: seq<Cookie>, name: string)
    requires WellFormed(entries) && UniqueNames(entries) && ValidName(name)
    ensures ReadCookie(Serialize(entries), name) ==
      if name in ToMap(entries) && ToMap(entries)[name] != "" then Some(ToMap(entries)[name]) else None
  {
    var sep := Sep(name);
    LookupMap(entries, name);
    if entries == [] {
      assert |sep| > 2 && "; " + Serialize(entries) == "; ";
      assert Split("; ", sep) == ["; "];
    } else {
      SerializePrefixed(entries);
      SplitPrefixed(entries, name);
      if name in ToMap(entries) {
        var v := ToMap(entries)[name];
        var p := v + After(entries, name);
        LookupWellFormed(entries, name);
        AfterStart(entries, name);
        SplitHead(p, ';');
        assert ";" == [';'];
        FirstAt(v, After(entries, name), ';');
        assert p[..|v|] == v;
      }
    }
  }

  /** The first `c` in `v + t` is right after `v` when `v` has none and `t` starts with one. */
  lemma FirstAt(v: string, t: string, c: char)
    requires c !in v && (t == [] || t[0] == c)
    ensures FirstIndexOf(v + t, c) == |v|
  {
    forall j | 0 <= j < |v| ensures (v + t)[j] != c {
      assert (v + t)[j] == v[j];
      assert v[j] in v;
    }
    assert t != [] ==> (v + t)[|v|] == c;
  }

  /** A cookie name that appears more than once (say, on two paths) leaves the reader with nothing. */
  lemma ReadDuplicated(entries: seq<Cookie>, name: string)
    requires WellFormed(entries) && ValidName(name) && Count(entries, name) >= 2
    ensures ReadCookie(Serialize(entries), name) == None
  {
    SerializePrefixed(entries);
    SplitPrefixed(entries, name);
  }

  // ---------------------------------------------------------------------------
  // The helpers of src/utils/cookies.ts over a jar

  /** Encoding of the cached user: `encodeURIComponent(JSON.stringify(u))` and its inverse. */
  datatype UserCodec = UserCodec(encode: User -> string, decode: string -> Option<User>)

  /**
   * What the library functions guarantee: a round trip, and an encoding that
   * is non-empty and, being URI-encoded, has neither ';' nor white space.
   */
  ghost predicate Sound(codec: UserCodec) {
    forall u :: codec.decode(codec.encode(u)) == Some(u) && codec.encode(u) != "" &&
      ';' !in codec.encode(u) && Trimmed(codec.encode(u))
  }

  /** `Max-Age=604800; Path=/; SameSite=Strict`, with `; Secure` in production. */
  function AuthOptions(secure: bool): seq<Attribute> {
    [MaxAge(MAX_AGE), Path("/"), SameSite("Strict")] + (if secure then [Secure] else [])
  }

  function TokenWrite(token: string, secure: bool): CookieWrite {
    CookieWrite(TOKEN_COOKIE, token, AuthOptions(secure))
  }

  function UserWrite(user: User, codec: UserCodec, secure: bool): CookieWrite {
    CookieWrite(USER_COOKIE, codec.encode(user), AuthOptions(secure))
  }

  /** `name=; expires=Thu, 01 Jan 1970 00:00:00 UTC; Path=/; SameSite=Strict`. */
  function ClearWrite(name: string): CookieWrite {
    CookieWrite(name, "", [Expires(EPOCH), Path("/"), SameSite("Strict")])
  }

  lemma MaxAgeText()
    ensures NatToString(MAX_AGE) == "604800"
  {
    assert MAX_AGE == 604800;
    assert NatToString(6) == "6";
    assert NatToString(60) == "60";
    assert NatToString(604) == NatToString(60) + "4";
    assert NatToString(6048) == NatToString(604) + "8";
    assert NatToString(60480) == NatToString(6048) + "0";
    assert NatToString(604800) == NatToString(60480) + "0";
  }

  lemma RenderCons(a: Attribute, t: seq<Attribute>)
    ensures RenderAttributes([a] + t) == "; " + RenderAttribute(a) + RenderAttributes(t)
  {
    assert ([a] + t)[1..] == t;
  }

  /** Rendering two leading attributes. */
  lemma RenderTwo(p: Attribute, q: Attribute, t: seq<Attribute>)
    ensures RenderAttributes([p, q] + t) == "; " + RenderAttribute(p) + ("; " + RenderAttribute(q) + RenderAttributes(t))
  {
    RenderCons(q, t);
    RenderCons(p, [q] + t);
    assert [p, q] + t == [p] + ([q] + t);
  }

  lemma MaxAgeAttributeText()
    ensures "; " + RenderAttribute(MaxAge(MAX_AGE)) == "; Max-Age=604800"
  {
    MaxAgeText();
    assert RenderAttribute(MaxAge(MAX_AGE)) == "Max-Age=" + "604800";
  }

  /** The text of each fixed attribute the writers use. */
  lemma AttributeTexts()
    ensures "; " + RenderAttribute(Path("/")) == "; Path=/"
    ensures "; " + RenderAttribute(SameSite("Strict")) == "; SameSite=Strict"
    ensures "; " + RenderAttribute(Expires(EPOCH)) == "; expires=" + EPOCH
    ensures RenderAttributes([Secure]) == "; Secure"
  {
    assert [Secure][1..] == [];
  }

  /** The options text of `setAuthCookies`: `; Max-Age=604800; Path=/; SameSite=Strict`, then `; Secure` in production. */
  lemma AuthOptionsText(secure: bool)
    ensures RenderAttributes(AuthOptions(secure)) ==
      "; Max-Age=604800" + ("; Path=/" + ("; SameSite=Strict" + (if secure then "; Secure" else "")))
  {
    var tail := if secure then [Secure] else [];
    AttributeTexts();
    MaxAgeAttributeText();
    RenderTwo(Path("/"), SameSite("Strict"), tail);
    var rest := [Path("/"), SameSite("Strict")] + tail;
    RenderCons(MaxAge(MAX_AGE), rest);
    assert AuthOptions(secure) == [MaxAge(MAX_AGE)] + rest;
  }

  /** The exact strings `setAuthCookies` assigns. */
  lemma SetWriteStrings(token: string, user: User, codec: UserCodec, secure: bool)
    ensures RenderWrite(TokenWrite(token, secure)) ==
      TOKEN_COOKIE + "=" + token + RenderAttributes(AuthOptions(secure))
    ensures RenderWrite(UserWrite(user, codec, secure)) ==
      USER_COOKIE + "=" + codec.encode(user) + RenderAttributes(AuthOptions(secure))
    ensures RenderAttributes(AuthOptions(secure)) ==
      "; Max-Age=604800" + ("; Path=/" + ("; SameSite=Strict" + (if secure then "; Secure" else "")))
  {
    AuthOptionsText(secure);
  }

  /** The exact strings `clearAuthCookies` assigns: an empty value, the 1970 date, `Path=/; SameSite=Strict`. */
  lemma ClearWriteStrings(name: string)
    ensures RenderWrite(ClearWrite(name)) ==
      name + "=" + "" + ("; expires=" + EPOCH + ("; Path=/" + ("; SameSite=Strict" + "")))
  {
    AttributeTexts();
    var rest: seq<Attribute> := [Path("/"), SameSite("Strict")];
    RenderTwo(Path("/"), SameSite("Strict"), []);
    assert rest + [] == rest;
    RenderCons(Expires(EPOCH), rest);
    assert ClearWrite(name).attributes == [Expires(EPOCH)] + rest;
  }

  lemma AuthOptionsKeep(secure: bool)
    ensures LastMaxAge(AuthOptions(secure)) == Some(MAX_AGE)
    ensures !Deletes(TokenWrite("", secure))
  {
    var tail := if secure then [Secure] else [];
    var opts := AuthOptions(secure);
    var o1, o2 := [Path("/"), SameSite("Strict")] + tail, [SameSite("Strict")] + tail;
    assert opts[1..] == o1 && o1[1..] == o2 && o2[1..] == tail;
    assert secure ==> tail[1..] == [];
    assert LastMaxAge(tail) == None;
    assert LastMaxAge(o2) == None;
    assert LastMaxAge(o1) == None;
  }

  /** Neither write of `setAuthCookies` deletes its cookie. */
  lemma AuthWritesStore(token: string, user: User, codec: UserCodec, secure: bool)
    ensures !Deletes(TokenWrite(token, secure)) && !Deletes(UserWrite(user, codec, secure))
  {
    AuthOptionsKeep(secure);
    assert TokenWrite(token, secure).attributes == AuthOptions(secure);
    assert UserWrite(user, codec, secure).attributes == AuthOptions(secure);
  }

  lemma ClearDeletes(name: string)
    ensures Deletes(ClearWrite(name))
  {
    var attrs := ClearWrite(name).attributes;
    var c1, c2: seq<Attribute> := [Path("/"), SameSite("Strict")], [SameSite("Strict")];
    assert attrs[1..] == c1 && c1[1..] == c2 && c2[1..] == [];
    assert LastMaxAge(c2) == None;
    assert LastMaxAge(c1) == None;
    assert LastMaxAge(attrs) == None;
    assert attrs[0] == Expires(EPOCH);
  }

  /**
   * The browser's cookie store as `document` sees it. Without a document
   * (server-side rendering) the jar stays empty.
   */
  class CookieJar {
    const hasDocument: bool
    var entries: seq<Cookie>

    ghost predicate Valid()
      reads this
    {
      WellFormed(entries) && UniqueNames(entries) && (!hasDocument ==> entries == [])
    }

    /** The map from cookie name to value. */
    function Jar(): map<string, string>
      reads this
    {
      ToMap(entries)
    }

    /** `document.cookie`. */
    function Document(): string
      reads this
    {
      Serialize(entries)
    }

    constructor (hasDocument: bool, initial: seq<Cookie>)
      requires WellFormed(initial) && UniqueNames(initial) && (!hasDocument ==> initial == [])
      ensures Valid() && this.hasDocument == hasDocument && entries == initial
    {
      this.hasDocument := hasDocument;
      entries := initial;
    }

    /** `document.cookie = RenderWrite(w)`. */
    method Assign(w: CookieWrite)
      requires Valid() && hasDocument && ValidName(w.name)
      modifies this
      ensures Valid()
      ensures entries == Apply(old(entries), w)
      ensures Jar() == if Deletes(w) then old(Jar()) - {w.name} else old(Jar())[w.name := StoredValue(w.value)]
    {
      ApplyMap(entries, w);
      entries := Apply(entries, w);
    }
  }

  /** `setAuthCookies(token, user)`. */
  method SetAuthCookies(jar: CookieJar, token: string, user: User, codec: UserCodec, secure: bool)
    requires jar.Valid()
    modifies jar
    ensures jar.Valid()
    ensures !jar.hasDocument ==> jar.entries == old(jar.entries)
    ensures jar.hasDocument ==>
      jar.entries == Apply(Apply(old(jar.entries), TokenWrite(token, secure)), UserWrite(user, codec, secure))
    ensures jar.hasDocument ==>
      jar.Jar() == old(jar.Jar())[TOKEN_COOKIE := StoredValue(token)][USER_COOKIE := StoredValue(codec.encode(user))]
  {
    if !jar.hasDocument {
      return;
    }
    ghost var m0 := jar.Jar();
    AuthWritesStore(token, user, codec, secure);
    jar.Assign(TokenWrite(token, secure));
    assert jar.Jar() == m0[TOKEN_COOKIE := StoredValue(token)];
    jar.Assign(UserWrite(user, codec, secure));
  }

  /** `clearAuthCookies()`. */
  method ClearAuthCookies(jar: CookieJar)
    requires jar.Valid()
    modifies jar
    ensures jar.Valid()
    ensures !jar.hasDocument ==> jar.entries == old(jar.entries)
    ensures jar.hasDocument ==> jar.entries == Apply(Apply(old(jar.entries), ClearWrite(TOKEN_COOKIE)), ClearWrite(USER_COOKIE))
    ensures jar.Jar() == old(jar.Jar()) - {TOKEN_COOKIE} - {USER_COOKIE}
  {
    if !jar.hasDocument {
      assert jar.Jar() == map[];
      return;
    }
    ghost var m0 := jar.Jar();
    ClearDeletes(TOKEN_COOKIE);
    ClearDeletes(USER_COOKIE);
    jar.Assign(ClearWrite(TOKEN_COOKIE));
    assert jar.Jar() == m0 - {TOKEN_COOKIE};
    jar.Assign(ClearWrite(USER_COOKIE));
  }

  /** The value a jar's map view holds for `name`, when it is non-empty. */
  function JarValue(m: map<string, string>, name: string): Option<string> {
    if name in m && m[name] != "" then Some(m[name]) else None
  }

  /** The reader over a valid jar agrees with the jar's map view. */
  lemma ReadJar(jar: CookieJar, name: string)
    requires ValidName(name)
    ensures jar.Valid() ==>
      (if jar.hasDocument then ReadCookie(jar.Document(), name) else None) == JarValue(jar.Jar(), name)
  {
    if jar.Valid() {
      ReadSerialized(jar.entries, name);
    }
  }

  /**
   * `getAuthToken()`: on a valid jar, the stored non-empty `access_token`
   * value, and null without one (always null without a document).
   */
  function GetAuthToken(jar: CookieJar): (t: Option<string>)
    reads jar
    ensures jar.Valid() ==> t == JarValue(jar.Jar(), TOKEN_COOKIE)
    ensures t.Some? ==> jar.hasDocument && t.value != "" && ';' !in t.value
  {
    ReadJar(jar, TOKEN_COOKIE);
    if !jar.hasDocument then None else ReadCookie(jar.Document(), TOKEN_COOKIE)
  }

  /**
   * `getUserSession()`: on a valid jar, the decoding of the stored non-empty
   * `user_session` value; null without one or when decoding fails.
   */
  function GetUserSession(jar: CookieJar, codec: UserCodec): (u: Option<User>)
    reads jar
    ensures jar.Valid() ==>
      u == if JarValue(jar.Jar(), USER_COOKIE).Some? then codec.decode(jar.Jar()[USER_COOKIE]) else None
    ensures u.Some? ==> jar.hasDocument
  {
    ReadJar(jar, USER_COOKIE);
    if !jar.hasDocument then None
    else match ReadCookie(jar.Document(), USER_COOKIE)
      case None => None
      case Some(raw) => codec.decode(raw)
  }

  /**
   * `hasActiveSession()`: on a valid jar, a non-empty stored token and a
   * stored user cookie that decodes to a user of role UNIVERSITAS.
   */
  predicate HasActiveSession(jar: CookieJar, codec: UserCodec)
    reads jar
    ensures jar.Valid() ==> (HasActiveSession(jar, codec) <==>
      JarValue(jar.Jar(), TOKEN_COOKIE).Some? && JarValue(jar.Jar(), USER_COOKIE).Some? &&
      codec.decode(jar.Jar()[USER_COOKIE]).Some? && codec.decode(jar.Jar()[USER_COOKIE]).value.rol == UNIVERSITAS)
  {
    match (GetAuthToken(jar), GetUserSession(jar, codec))
    case (Some(_), Some(u)) => u.rol == UNIVERSITAS
    case _ => false
  }

  /** A cookie whose name only ends in `access_token` is not the token. */
  lemma SuffixNameIgnored(value: string)
    requires ValidValue(value)
    ensures ReadCookie(Serialize([Cookie("xaccess_token", value)]), TOKEN_COOKIE) == None
  {
    var entries := [Cookie("xaccess_token", value)];
    assert WellFormed(entries) by {
      assert ';' !in "xaccess_token" && '=' !in "xaccess_token";
    }
    assert ToMap(entries) == map["xaccess_token" := value];
    ReadSerialized(entries, TOKEN_COOKIE);
  }
}
