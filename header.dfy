/**
 * The logic of the dashboard header (src/components/layout/Header.tsx):
 * the avatar initials and the logout handler.
 */
module Header {
  import opened Text
  import opened Routes
  import opened Session
  import opened Store
  import AuthStorage
  import opened Wrappers

  /**
   * `part[0]` inside a template literal: the first character, or the text
   * `undefined` when the part is empty.
   */
  function InitialAsWritten(part: string): string {
    if part == "" then "undefined" else [part[0]]
  }

  /**
   * `getInitials()` as written: the upper-cased first letters of the first
   * two words, where an empty word (from a leading or a doubled space)
   * contributes `UNDEFINED`; a single word gives its first two characters.
   */
  function GetInitialsAsWritten(name: string): (r: string)
    ensures var parts := Split(name, " ");
      |parts| >= 2 && parts[0] != "" && parts[1] != "" ==> r == [UpperChar(parts[0][0]), UpperChar(parts[1][0])]
    ensures var parts := Split(name, " ");
      |parts| >= 2 && parts[0] == "" ==> |r| >= 9 && r[..9] == "UNDEFINED"
    ensures var parts := Split(name, " ");
      |parts| >= 2 && parts[0] != "" && parts[1] == "" ==> r == [UpperChar(parts[0][0])] + "UNDEFINED"
  {
    var parts := Split(name, " ");
    if |parts| >= 2 then
      UpperAppend(InitialAsWritten(parts[0]), InitialAsWritten(parts[1]));
      UpperUndefined();
      Upper(InitialAsWritten(parts[0]) + InitialAsWritten(parts[1]))
    else Upper(Take(name, 2))
  }

  /** Upper-casing works character by character, so it distributes over concatenation. */
  lemma UpperAppend(a: string, b: string)
    ensures Upper(a + b) == Upper(a) + Upper(b)
  {
    var l, r := Upper(a + b), Upper(a) + Upper(b);
    forall i | 0 <= i < |l| ensures l[i] == r[i] {
      if i < |a| {
        assert (a + b)[i] == a[i];
      } else {
        assert (a + b)[i] == b[i - |a|];
      }
    }
  }

  /**
   * `getInitials()` as intended: the first letters of the first two words
   * when both are non-empty, otherwise the first two characters; always at
   * most two characters.
   */
  function GetInitials(name: string): (r: string)
    ensures |r| == if |name| < 2 then |name| else 2
    ensures var parts := Split(name, " ");
      |parts| >= 2 && parts[0] != "" && parts[1] != "" ==> r == [UpperChar(parts[0][0]), UpperChar(parts[1][0])]
  {
    var parts := Split(name, " ");
    if |parts| >= 2 && parts[0] != "" && parts[1] != "" then
      JoinSplit(name, " ");
      assert name == parts[0] + " " + Join(parts[1..], " ");
      PartIsPrefix(parts[1..], " ");
      Upper([parts[0][0], parts[1][0]])
    else Upper(Take(name, 2))
  }

  /** Where both of the first two words are non-empty, or there is one word only, the two agree. */
  lemma AsWrittenAgrees(name: string)
    requires var parts := Split(name, " "); |parts| < 2 || (parts[0] != "" && parts[1] != "")
    ensures GetInitialsAsWritten(name) == GetInitials(name)
  {
  }

  lemma SplitLeadingSpace()
    ensures Split(" a", " ") == ["", "a"]
  {
    assert " " == [' '] && "a" == ['a'];
    SplitNoChar("a", ' ');
    assert " a"[..1] == " " && " a"[1..] == "a";
  }

  lemma UpperUndefined()
    ensures Upper("undefined") == "UNDEFINED"
  {
    var u := Upper("undefined");
    forall i | 0 <= i < 9 ensures u[i] == "UNDEFINED"[i] {
      assert u[i] == UpperChar("undefined"[i]);
    }
  }

  /** A leading space makes the written version print `UNDEFINED`. */
  lemma LeadingSpaceAsWritten()
    ensures GetInitialsAsWritten(" a") == "UNDEFINEDA"
    ensures GetInitials(" a") == " A"
  {
    SplitLeadingSpace();
    UpperUndefined();
    UpperAppend("undefined", "a");
    assert Upper("a") == "A" by { assert Upper("a")[0] == UpperChar('a'); }
    assert Take(" a", 2) == " a";
    assert Upper(" a")[1] == UpperChar('a');
  }

  /** A name without spaces is one word: its first two characters, upper-cased. */
  lemma NoSpaceName(name: string)
    requires ' ' !in name
    ensures GetInitials(name) == Upper(Take(name, 2))
    ensures GetInitialsAsWritten(name) == GetInitials(name)
  {
    assert " " == [' '];
    SplitNoChar(name, ' ');
  }

  /** The name of a verified session whose email has no space is an email prefix, so it is one word. */
  lemma SessionInitials(token: string, decode: string -> Option<Claims>, nowMs: int)
    requires VerifySession(token, decode, nowMs).Some?
    requires ' ' !in VerifySession(token, decode, nowMs).value.email
    ensures var name := VerifySession(token, decode, nowMs).value.name;
      GetInitials(name) == Upper(Take(name, 2)) && GetInitialsAsWritten(name) == GetInitials(name)
  {
    var s := VerifySession(token, decode, nowMs).value;
    VerifyName(token, decode, nowMs);
    assert forall i :: 0 <= i < |s.name| ==> s.name[i] == s.email[i];
    NoSpaceName(s.name);
  }

  /** `handleLogout()`: the store signs out before the router goes to `/login`. */
  method HandleLogout(store: AuthStore) returns (route: string)
    requires store.Valid()
    modifies store, store.jar
    ensures store.Valid()
    ensures route == LOGIN && store.State() == SIGNED_OUT
    ensures AuthStorage.GetToken(store.jar) == None
  {
    store.Logout();
    route := LOGIN;
  }
}
