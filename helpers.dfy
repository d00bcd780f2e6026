/**
 * helpers.py: the digit normaliser and the two route guards.
 *
 * Python's `\D` matches every character that is not a Unicode decimal digit;
 * which characters those are is left abstract as the parameter `isDigit`.
 */
module Helpers {
  import opened Wrappers
  import opened Records
  import opened Web

  predicate AllDigits(isDigit: char -> bool, s: string) {
    forall i :: 0 <= i < |s| ==> isDigit(s[i])
  }

  /** The number of occurrences of `c` in `s`. */
  function Occurrences(c: char, s: string): nat {
    if s == [] then 0 else (if s[0] == c then 1 else 0) + Occurrences(c, s[1..])
  }

  ghost predicate IsSubsequence(r: string, s: string)
    decreases |s|
  {
    r == [] || (s != [] && ((r[0] == s[0] && IsSubsequence(r[1..], s[1..])) || IsSubsequence(r, s[1..])))
  }

  /** `re.sub(r'\D', '', s)`: every non-digit removed. */
  function DropNonDigits(isDigit: char -> bool, s: string): (r: string)
    ensures AllDigits(isDigit, r)
    ensures |r| <= |s|
  {
    if s == [] then []
    else (if isDigit(s[0]) then [s[0]] else []) + DropNonDigits(isDigit, s[1..])
  }

  /** `norm(input)`: falsy input (None or "") comes back as it is. */
  function Norm(isDigit: char -> bool, input: Text): (r: Text)
    ensures !Truthy(input) ==> r == input
    ensures input.Some? <==> r.Some?
    ensures r.Some? ==> AllDigits(isDigit, r.value) && |r.value| <= |input.value|
  {
    if Truthy(input) then Some(DropNonDigits(isDigit, input.value)) else input
  }

  /** Removing non-digits distributes over concatenation. */
  lemma {:induction false} DropNonDigitsAppend(isDigit: char -> bool, a: string, b: string)
    ensures DropNonDigits(isDigit, a + b) == DropNonDigits(isDigit, a) + DropNonDigits(isDigit, b)
  {
    if a == [] {
      assert a + b == b;
    } else {
      var head := if isDigit(a[0]) then [a[0]] else [];
      assert (a + b)[0] == a[0] && (a + b)[1..] == a[1..] + b;
      calc {
        DropNonDigits(isDigit, a + b);
        head + DropNonDigits(isDigit, a[1..] + b);
        { DropNonDigitsAppend(isDigit, a[1..], b); }
        head + (DropNonDigits(isDigit, a[1..]) + DropNonDigits(isDigit, b));
        (head + DropNonDigits(isDigit, a[1..])) + DropNonDigits(isDigit, b);
      }
    }
  }

  /** The output is a subsequence of the input: the digits keep their order. */
  lemma {:induction false} DropNonDigitsIsSubsequence(isDigit: char -> bool, s: string)
    ensures IsSubsequence(DropNonDigits(isDigit, s), s)
  {
    if s != [] {
      DropNonDigitsIsSubsequence(isDigit, s[1..]);
      var rest := DropNonDigits(isDigit, s[1..]);
      if isDigit(s[0]) {
        var r := DropNonDigits(isDigit, s);
        assert r == [s[0]] + rest;
        assert r[0] == s[0] && r[1..] == rest;
        assert IsSubsequence(r[1..], s[1..]);
      } else {
        assert DropNonDigits(isDigit, s) == rest;
      }
    }
  }

  /** Every digit occurrence survives, and no other character does. */
  lemma {:induction false} DropNonDigitsCounts(isDigit: char -> bool, s: string, c: char)
    ensures Occurrences(c, DropNonDigits(isDigit, s)) == if isDigit(c) then Occurrences(c, s) else 0
  {
    if s != [] {
      DropNonDigitsCounts(isDigit, s[1..], c);
      var rest := DropNonDigits(isDigit, s[1..]);
      if isDigit(s[0]) {
        var r := DropNonDigits(isDigit, s);
        assert r == [s[0]] + rest;
        assert r[0] == s[0] && r[1..] == rest;
        assert Occurrences(c, r) == (if s[0] == c then 1 else 0) + Occurrences(c, rest);
      } else {
        assert DropNonDigits(isDigit, s) == rest;
      }
    }
  }

  /** A string is left unchanged exactly when it already consists of digits only. */
  lemma {:induction false} DropNonDigitsFixpoint(isDigit: char -> bool, s: string)
    ensures DropNonDigits(isDigit, s) == s <==> AllDigits(isDigit, s)
  {
    if s != [] {
      DropNonDigitsFixpoint(isDigit, s[1..]);
      if !isDigit(s[0]) {
        assert |DropNonDigits(isDigit, s)| < |s|;
      } else {
        assert AllDigits(isDigit, s) <==> AllDigits(isDigit, s[1..]) by {
          if AllDigits(isDigit, s[1..]) {
            forall i | 0 <= i < |s| ensures isDigit(s[i]) {
              if i > 0 { assert s[i] == s[1..][i - 1]; }
            }
          }
        }
      }
    }
  }

  /** `norm` is idempotent. */
  lemma NormIdempotent(isDigit: char -> bool, input: Text)
    ensures Norm(isDigit, Norm(isDigit, input)) == Norm(isDigit, input)
  {
    var once := Norm(isDigit, input);
    if Truthy(once) {
      DropNonDigitsFixpoint(isDigit, once.value);
    }
  }

  /** An all-digit string is returned unchanged, and only such a string is. */
  lemma NormFixpoint(isDigit: char -> bool, s: string)
    ensures Norm(isDigit, Some(s)) == Some(s) <==> AllDigits(isDigit, s)
  {
    DropNonDigitsFixpoint(isDigit, s);
  }

  /**
   * `login_required`: with no user id in the session the request is
   * redirected to /login; otherwise the wrapped handler runs.  Being a
   * function, it cannot change the session.
   */
  function LoginRequired(session: Session): (g: Gate)
    reads session
    ensures g == Proceed <==> session.userId.Some?
    ensures g != Proceed ==> g == Halt(Redirect(Path("/login"), None))
  {
    if session.userId.None? then Halt(Redirect(Path("/login"), None)) else Proceed
  }

  /**
   * `check_required`: unless the password was re-confirmed, remember the
   * requested path and redirect to the confirmation page.
   */
  method CheckRequired(session: Session, path: string) returns (g: Gate)
    modifies session`nextUrl
    ensures g == Proceed <==> old(session.checked)
    ensures g == Proceed ==> session.nextUrl == old(session.nextUrl)
    ensures g != Proceed ==> g == Halt(Redirect(Path("/check"), None)) && session.nextUrl == Some(path)
  {
    if !session.checked {
      session.nextUrl := Some(path);
      return Halt(Redirect(Path("/check"), None));
    }
    return Proceed;
  }

  /**
   * The decorators stacked as on /password and /change: `login_required`
   * outermost, then `check_required` when the route asks for it.
   */
  method Guard(session: Session, path: string, confirm: bool) returns (g: Gate)
    modifies session`nextUrl
    ensures g == Proceed <==> old(session.userId).Some? && (confirm ==> old(session.checked))
    ensures old(session.userId).None? ==> g == Halt(Redirect(Path("/login"), None)) && session.nextUrl == old(session.nextUrl)
    ensures old(session.userId).Some? && confirm && !old(session.checked) ==>
      g == Halt(Redirect(Path("/check"), None)) && session.nextUrl == Some(path)
    ensures g == Proceed ==> session.nextUrl == old(session.nextUrl)
  {
    g := LoginRequired(session);
    if g == Proceed && confirm {
      g := CheckRequired(session, path);
    }
  }
}
