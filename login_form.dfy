/**
 * `LoginForm` (src/components/LoginForm.tsx): the two field states, the
 * guards of `handleSubmit` and the email pattern `^[^\s@]+@[^\s@]+\.[^\s@]+$`.
 */
module LoginForm {
  import opened Wrappers
  import opened AuthTypes
  import opened Http
  import opened Routes
  import opened Store

  /** A toast: its title and its description. */
  datatype Notice = Notice(title: string, description: string)

  const FIELDS_REQUIRED: Notice := Notice("Campos requeridos", "Por favor complete todos los campos")
  const EMAIL_INVALID: Notice := Notice("Email inválido", "Por favor ingrese un email válido")
  const CREDENTIALS_INVALID: string := "Credenciales inválidas. Por favor intente nuevamente."

  /** What `handleSubmit` ends in: a validation toast, navigation, or an authentication-error toast. */
  datatype SubmitResult = Rejected(notice: Notice) | Navigate(route: string) | LoginFailed(description: string)

  /** `\s` of a JavaScript regular expression: the white space and line terminator characters. */
  predicate IsJsSpace(c: char) {
    var n := c as int;
    (9 <= n <= 13) || n == 0x20 || n == 0xA0 || n == 0x1680 || (0x2000 <= n <= 0x200A) ||
    n == 0x2028 || n == 0x2029 || n == 0x202F || n == 0x205F || n == 0x3000 || n == 0xFEFF
  }

  /** `[^\s@]`. */
  predicate Plain(c: char) {
    c != '@' && !IsJsSpace(c)
  }

  /** `[^\s@]+`. */
  predicate Word(w: string) {
    w != "" && forall i :: 0 <= i < |w| ==> Plain(w[i])
  }

  /** The regular expression, read as it matches: three words joined by `@` and `.`. */
  ghost predicate EmailPattern(s: string) {
    exists a: string, b: string, c: string :: Word(a) && Word(b) && Word(c) && s == a + "@" + b + "." + c
  }

  predicate NoSpace(s: string) {
    forall i :: 0 <= i < |s| ==> !IsJsSpace(s[i])
  }

  /** A `.` that is neither the first nor the last character. */
  predicate InnerDot(d: string) {
    exists j :: 0 < j < |d| - 1 && d[j] == '.'
  }

  /**
   * The same test stated field by field: no white space, exactly one `@`,
   * a non-empty local part, and a domain with an inner `.`.
   */
  predicate EmailShape(s: string) {
    NoSpace(s) &&
    exists k :: 0 < k < |s| && s[k] == '@' && (forall i :: 0 <= i < |s| && i != k ==> s[i] != '@') && InnerDot(s[k + 1..])
  }

  lemma PatternHasShape(a: string, b: string, c: string)
    requires Word(a) && Word(b) && Word(c)
    ensures EmailShape(a + "@" + b + "." + c)
  {
    var s := a + "@" + b + "." + c;
    var k := |a|;
    var d := s[k + 1..];
    assert d == b + "." + c;
    assert d[|b|] == '.';
    forall i | 0 <= i < |s| ensures !IsJsSpace(s[i]) && (i != k ==> s[i] != '@') {
      if i < k {
        assert s[i] == a[i];
      } else if k < i < k + 1 + |b| {
        assert s[i] == b[i - k - 1];
      } else if k + 1 + |b| < i {
        assert s[i] == c[i - k - 2 - |b|];
      }
    }
    assert s[k] == '@';
    assert InnerDot(d) by {
      assert 0 < |b| < |d| - 1;
    }
    assert 0 < k < |s| && s[k] == '@' && (forall i :: 0 <= i < |s| && i != k ==> s[i] != '@') && InnerDot(s[k + 1..]);
  }

  /** A non-empty slice that avoids the `@` at `k` is a word. */
  lemma SliceIsWord(s: string, k: nat, lo: nat, hi: nat)
    requires NoSpace(s) && k < |s|
    requires forall i :: 0 <= i < |s| && i != k ==> s[i] != '@'
    requires lo < hi <= |s| && (k < lo || hi <= k)
    ensures Word(s[lo..hi])
  {
    var w := s[lo..hi];
    forall i | 0 <= i < |w| ensures Plain(w[i]) {
      assert w[i] == s[lo + i];
    }
  }

  /** Cutting at the `@` at `k` and the `.` at `dot` gives the three words of the pattern. */
  lemma CutIsPattern(s: string, k: nat, dot: nat)
    requires NoSpace(s) && 0 < k && k + 1 < dot && dot + 1 < |s|
    requires s[k] == '@' && s[dot] == '.'
    requires forall i :: 0 <= i < |s| && i != k ==> s[i] != '@'
    ensures EmailPattern(s)
  {
    var a, b, c := s[..k], s[k + 1..dot], s[dot + 1..];
    SliceIsWord(s, k, 0, k);
    SliceIsWord(s, k, k + 1, dot);
    SliceIsWord(s, k, dot + 1, |s|);
    assert s[0..k] == a;
    assert s == a + [s[k]] + b + [s[dot]] + c;
    assert "@" == [s[k]] && "." == [s[dot]];
    assert Word(a) && Word(b) && Word(c) && s == a + "@" + b + "." + c;
  }

  lemma ShapeHasPattern(s: string)
    requires EmailShape(s)
    ensures EmailPattern(s)
  {
    var k :| 0 < k < |s| && s[k] == '@' && (forall i :: 0 <= i < |s| && i != k ==> s[i] != '@') && InnerDot(s[k + 1..]);
    var d := s[k + 1..];
    var j :| 0 < j < |d| - 1 && d[j] == '.';
    assert s[k + 1 + j] == d[j];
    CutIsPattern(s, k, k + 1 + j);
  }

  /** The field-by-field test is the regular expression. */
  lemma EmailShapeIff(s: string)
    ensures EmailShape(s) <==> EmailPattern(s)
  {
    if EmailPattern(s) {
      var a: string, b: string, c: string :| Word(a) && Word(b) && Word(c) && s == a + "@" + b + "." + c;
      PatternHasShape(a, b, c);
    }
    if EmailShape(s) {
      ShapeHasPattern(s);
    }
  }

  /** The guards of `handleSubmit`, in order: empty fields first, then the email pattern. */
  function Validate(email: string, password: string): (notice: Option<Notice>)
    ensures notice == Some(FIELDS_REQUIRED) <==> email == "" || password == ""
    ensures notice == Some(EMAIL_INVALID) <==> email != "" && password != "" && !EmailPattern(email)
    ensures notice.None? <==> email != "" && password != "" && EmailPattern(email)
  {
    EmailShapeIff(email);
    if email == "" || password == "" then Some(FIELDS_REQUIRED)
    else if !EmailShape(email) then Some(EMAIL_INVALID)
    else None
  }

  class LoginFormState {
    var email: string
    var password: string
    const store: AuthStore

    constructor (store: AuthStore)
      ensures this.store == store && email == "" && password == ""
    {
      this.store := store;
      email := "";
      password := "";
    }

    /** The email input's `onChange`. */
    method SetEmail(value: string)
      modifies this
      ensures email == value && password == old(password)
    {
      email := value;
    }

    /** The password input's `onChange`. */
    method SetPassword(value: string)
      modifies this
      ensures password == value && email == old(email)
    {
      password := value;
    }

    /**
     * `handleSubmit`, given the backend's outcome for these credentials:
     * a failed guard shows its toast and leaves the store alone; otherwise
     * the store logs in, and the form goes to `/dashboard` or shows the
     * message of what `login` threw.
     */
    method HandleSubmit(call: Outcome<LoginResponse>) returns (result: SubmitResult)
      requires store.Valid()
      modifies store, store.jar
      ensures store.Valid()
      ensures Validate(email, password).Some? ==>
        result == Rejected(Validate(email, password).value) &&
        store.State() == old(store.State()) && store.jar.entries == old(store.jar.entries)
      ensures Validate(email, password).None? && Rethrown(call).None? ==>
        result == Navigate(DASHBOARD) && store.State() == AuthState(Some(call.value.user), true, false, None)
      ensures Validate(email, password).None? && Rethrown(call).Some? ==>
        result == LoginFailed(MessageOr(Rethrown(call).value, CREDENTIALS_INVALID)) &&
        !store.State().isAuthenticated && store.State().error.Some?
    {
      var notice := Validate(email, password);
      if notice.Some? {
        return Rejected(notice.value);
      }
      store.LoginBegin();
      var thrown := store.LoginEnd(call);
      if thrown.None? {
        result := Navigate(DASHBOARD);
      } else {
        result := LoginFailed(MessageOr(thrown.value, CREDENTIALS_INVALID));
      }
    }
  }

  /** A user of another role sees the store's permission message, not the default. */
  lemma WrongRoleMessage(response: LoginResponse)
    requires response.user.rol != UNIVERSITAS
    ensures MessageOr(Rethrown(Ok(response)).value, CREDENTIALS_INVALID) == NO_PERMISSION
  {
  }

  /** White space anywhere is rejected. */
  lemma EmailRejectsSpace()
    ensures !EmailPattern("a b@c.d")
  {
    EmailShapeIff("a b@c.d");
    assert IsJsSpace("a b@c.d"[1]);
  }

  /** A second `@` is rejected. */
  lemma EmailRejectsTwoAt()
    ensures !EmailPattern("a@b@c.d")
  {
    var s := "a@b@c.d";
    EmailShapeIff(s);
    forall k | 0 < k < |s| && s[k] == '@' ensures exists i :: 0 <= i < |s| && i != k && s[i] == '@' {
      if k == 1 {
        assert s[3] == '@';
      } else {
        assert s[1] == '@';
      }
    }
  }

  lemma EmailAccepts()
    ensures EmailPattern("a@b.c")
  {
    PatternHasShape("a", "b", "c");
    assert "a" + "@" + "b" + "." + "c" == "a@b.c";
    EmailShapeIff("a@b.c");
  }
}
