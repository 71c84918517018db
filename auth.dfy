/** The authentication context: a mock login that accepts any credentials
    and derives the user's display name from the e-mail address, logout, and
    the "is authenticated" flag. */
module Auth {
  import opened Collections

  datatype Role = Organizer | Student

  datatype User = User(id: string, name: string, email: string, role: Role)

  predicate IsAsciiLetter(c: char) {
    'a' <= c <= 'z' || 'A' <= c <= 'Z'
  }

  /** The letters of a string, in order. */
  function Letters(s: string): string {
    Filter(s, IsAsciiLetter)
  }

  /** No two adjacent characters are both spaces. */
  predicate NoDoubleSpace(s: string) {
    forall i :: 0 <= i < |s| - 1 ==> !(s[i] == ' ' && s[i + 1] == ' ')
  }

  predicate LettersAndSpaces(s: string) {
    forall i :: 0 <= i < |s| ==> IsAsciiLetter(s[i]) || s[i] == ' '
  }

  /** `email.split('@')[0]`: the text before the first '@', or all of it. */
  function LocalPart(email: string): (r: string)
    ensures r <= email
    ensures '@' !in r
    ensures |r| < |email| ==> email[|r|] == '@'
  {
    if email == [] || email[0] == '@' then []
    else [email[0]] + LocalPart(email[1..])
  }

  /** `.replace(/[^a-zA-Z ]/g, ' ')`: every character other than an ASCII
      letter or a space becomes a space. */
  function Sanitize(s: string): (r: string)
    ensures |r| == |s|
    ensures LettersAndSpaces(r)
    ensures forall i :: 0 <= i < |s| && IsAsciiLetter(s[i]) ==> r[i] == s[i]
    ensures forall i :: 0 <= i < |s| && !IsAsciiLetter(s[i]) ==> r[i] == ' '
  {
    seq(|s|, i requires 0 <= i < |s| => if IsAsciiLetter(s[i]) || s[i] == ' ' then s[i] else ' ')
  }

  /** `.replace(/\s+/g, ' ')` on a string whose only whitespace is the space:
      every run of spaces becomes one space. */
  function Collapse(s: string): (r: string)
    ensures |r| <= |s|
    ensures |s| > 0 ==> |r| > 0 && r[0] == s[0] && r[|r| - 1] == s[|s| - 1]
    ensures LettersAndSpaces(s) ==> LettersAndSpaces(r)
    ensures NoDoubleSpace(r)
    decreases |s|
  {
    if |s| == 0 then s
    else if |s| >= 2 && s[0] == ' ' && s[1] == ' ' then Collapse(s[1..])
    else [s[0]] + Collapse(s[1..])
  }

  /** Collapsing removes spaces only, so the letters survive in order. */
  lemma {:induction false} CollapseKeepsLetters(s: string)
    ensures Letters(Collapse(s)) == Letters(s)
    decreases |s|
  {
    if |s| > 0 {
      CollapseKeepsLetters(s[1..]);
      assert s == [s[0]] + s[1..];
      FilterConcat([s[0]], s[1..], IsAsciiLetter);
      if |s| >= 2 && s[0] == ' ' && s[1] == ' ' {
        assert Letters([s[0]]) == [];
      } else {
        FilterConcat([s[0]], Collapse(s[1..]), IsAsciiLetter);
      }
    }
  }

  predicate AllSpaces(s: string) {
    forall i :: 0 <= i < |s| ==> s[i] == ' '
  }

  /** A single character that does not start a double space is kept in front. */
  lemma {:induction false} CollapseSingle(c: char, b: string)
    requires !(c == ' ' && |b| > 0 && b[0] == ' ')
    ensures Collapse([c] + b) == [c] + Collapse(b)
  {
    assert ([c] + b)[1..] == b;
  }

  /** The front of a double space is dropped. */
  lemma {:induction false} CollapseDrop(t: string)
    requires |t| >= 1 && t[0] == ' '
    ensures Collapse([' '] + t) == Collapse(t)
  {
    assert ([' '] + t)[1..] == t;
  }

  /** The inductive step of CollapseConcat: one character in front of `t`. */
  lemma {:induction false} CollapseConcatStep(c: char, t: string, b: string)
    requires |t| >= 1
    requires Collapse(t + b) == Collapse(t) + Collapse(b)
    ensures Collapse([c] + (t + b)) == Collapse([c] + t) + Collapse(b)
  {
    assert (t + b)[0] == t[0];
    if c == ' ' && t[0] == ' ' {
      calc {
        Collapse([c] + (t + b));
      == { CollapseDrop(t + b); }
        Collapse(t + b);
      ==
        Collapse(t) + Collapse(b);
      == { CollapseDrop(t); }
        Collapse([c] + t) + Collapse(b);
      }
    } else {
      calc {
        Collapse([c] + (t + b));
      == { CollapseSingle(c, t + b); }
        [c] + Collapse(t + b);
      ==
        [c] + (Collapse(t) + Collapse(b));
      ==
        ([c] + Collapse(t)) + Collapse(b);
      == { CollapseSingle(c, t); }
        Collapse([c] + t) + Collapse(b);
      }
    }
  }

  /** Collapsing works run by run: where the cut between `a` and `b` does
      not split a run of spaces, each side collapses on its own. */
  lemma {:induction false} CollapseConcat(a: string, b: string)
    requires !(|a| > 0 && |b| > 0 && a[|a| - 1] == ' ' && b[0] == ' ')
    ensures Collapse(a + b) == Collapse(a) + Collapse(b)
    decreases |a|
  {
    if |a| == 0 {
      assert a + b == b;
    } else if |a| == 1 {
      assert a == [a[0]];
      CollapseSingle(a[0], b);
    } else {
      var t := a[1..];
      assert a == [a[0]] + t && a + b == [a[0]] + (t + b);
      assert t[|t| - 1] == a[|a| - 1];
      CollapseConcat(t, b);
      CollapseConcatStep(a[0], t, b);
    }
  }

  /** A run of one or more spaces becomes exactly one space. */
  lemma {:induction false} CollapseSpaceRun(s: string)
    requires |s| >= 1 && AllSpaces(s)
    ensures Collapse(s) == " "
    decreases |s|
  {
    if |s| >= 2 {
      CollapseSpaceRun(s[1..]);
    }
  }

  /** Text without spaces is left as it is. */
  lemma {:induction false} CollapseNoSpaces(s: string)
    requires ' ' !in s
    ensures Collapse(s) == s
    decreases |s|
  {
    if |s| > 0 {
      assert s[0] != ' ';
      CollapseNoSpaces(s[1..]);
    }
  }

  /** A run of spaces before a word becomes one space. */
  lemma {:induction false} CollapseRunBeforeWord(sp: string, w: string)
    requires ' ' !in w
    requires |sp| >= 1 && AllSpaces(sp)
    ensures Collapse(sp + w) == " " + w
  {
    if |w| > 0 {
      assert w[0] in w;
    }
    calc {
      Collapse(sp + w);
    == { CollapseConcat(sp, w); }
      Collapse(sp) + Collapse(w);
    == { CollapseSpaceRun(sp); CollapseNoSpaces(w); }
      " " + w;
    }
  }

  /** Two words separated by any run of spaces end up separated by exactly
      one space. */
  lemma {:induction false} CollapseWordBreak(w1: string, sp: string, w2: string)
    requires ' ' !in w1 && ' ' !in w2
    requires |sp| >= 1 && AllSpaces(sp)
    ensures Collapse(w1 + sp + w2) == w1 + " " + w2
  {
    if |w1| > 0 {
      assert w1[|w1| - 1] in w1;
    }
    assert (sp + w2)[0] == ' ';
    calc {
      Collapse(w1 + sp + w2);
    == { assert w1 + sp + w2 == w1 + (sp + w2); }
      Collapse(w1 + (sp + w2));
    == { CollapseConcat(w1, sp + w2); }
      Collapse(w1) + Collapse(sp + w2);
    == { CollapseNoSpaces(w1); CollapseRunBeforeWord(sp, w2); }
      w1 + (" " + w2);
    == 
      w1 + " " + w2;
    }
  }

  /** Leading spaces removed: a suffix of `s` preceded only by spaces. */
  function TrimStart(s: string): (r: string)
    ensures |r| <= |s| && r == s[|s| - |r|..]
    ensures forall i :: 0 <= i < |s| - |r| ==> s[i] == ' '
    ensures |r| > 0 ==> r[0] != ' '
    decreases |s|
  {
    if |s| > 0 && s[0] == ' ' then TrimStart(s[1..]) else s
  }

  /** Trailing spaces removed: a prefix of `s` followed only by spaces. */
  function TrimEnd(s: string): (r: string)
    ensures |r| <= |s| && r == s[..|r|]
    ensures forall i :: |r| <= i < |s| ==> s[i] == ' '
    ensures |r| > 0 ==> r[|r| - 1] != ' '
    decreases |s|
  {
    if |s| > 0 && s[|s| - 1] == ' ' then TrimEnd(s[..|s| - 1]) else s
  }

  /** `.trim()`, on a string whose only whitespace is the space. */
  function Trim(s: string): (r: string)
    ensures |r| <= |s|
    ensures |r| > 0 ==> r[0] != ' ' && r[|r| - 1] != ' '
  {
    var t := TrimStart(s);
    var r := TrimEnd(t);
    assert |r| > 0 ==> r[0] == t[0];
    r
  }

  /** Only spaces precede the kept suffix, so no letter is lost. */
  lemma TrimStartKeepsLetters(s: string)
    ensures Letters(TrimStart(s)) == Letters(s)
  {
    var r := TrimStart(s);
    var k := |s| - |r|;
    assert s == s[..k] + r;
    FilterConcat(s[..k], r, IsAsciiLetter);
    FilterDropsAll(s[..k], IsAsciiLetter);
  }

  /** Only spaces follow the kept prefix, so no letter is lost. */
  lemma TrimEndKeepsLetters(s: string)
    ensures Letters(TrimEnd(s)) == Letters(s)
  {
    var r := TrimEnd(s);
    assert s == r + s[|r|..];
    FilterConcat(r, s[|r|..], IsAsciiLetter);
    FilterDropsAll(s[|r|..], IsAsciiLetter);
  }

  /** Trimming removes spaces only, so the letters survive in order. */
  lemma TrimKeepsLetters(s: string)
    ensures Letters(Trim(s)) == Letters(s)
  {
    TrimStartKeepsLetters(s);
    TrimEndKeepsLetters(TrimStart(s));
  }

  /** A slice of a string keeps the "letters and spaces only" and "no
      double space" shapes. */
  lemma SliceKeepsShape(s: string, a: nat, b: nat)
    requires a <= b <= |s|
    ensures LettersAndSpaces(s) ==> LettersAndSpaces(s[a..b])
    ensures NoDoubleSpace(s) ==> NoDoubleSpace(s[a..b])
  {
    var t := s[a..b];
    assert forall i :: 0 <= i < |t| ==> t[i] == s[a + i];
  }

  /** Trimming keeps a contiguous part of the string, so the "letters and
      spaces only" and "no double space" shapes survive it. */
  lemma TrimKeepsShape(s: string)
    ensures LettersAndSpaces(s) ==> LettersAndSpaces(Trim(s))
    ensures NoDoubleSpace(s) ==> NoDoubleSpace(Trim(s))
  {
    var t := TrimStart(s);
    SliceKeepsShape(s, |s| - |t|, |s|);
    SliceKeepsShape(t, 0, |TrimEnd(t)|);
  }

  /** The display name `login` stores: the local part of the address, with
      every character other than a letter or a space turned into a space,
      runs of spaces collapsed, and the ends trimmed. */
  function DisplayName(email: string): (n: string)
    ensures |n| <= |LocalPart(email)|
    ensures |n| > 0 ==> n[0] != ' ' && n[|n| - 1] != ' '
  {
    Trim(Collapse(Sanitize(LocalPart(email))))
  }

  lemma SanitizeKeepsLetters(s: string)
    ensures Letters(Sanitize(s)) == Letters(s)
  {
    var r := Sanitize(s);
    var p := IsAsciiLetter;
    assert forall i :: 0 <= i < |s| ==> (p(r[i]) <==> p(s[i]));
    FilterSameMask(r, s, p);
  }

  /** Two strings of equal length whose letters sit at the same places and
      agree there have the same letters. */
  lemma {:induction false} FilterSameMask(r: string, s: string, p: char -> bool)
    requires |r| == |s|
    requires forall i :: 0 <= i < |s| ==> (p(r[i]) <==> p(s[i]))
    requires forall i :: 0 <= i < |s| && p(s[i]) ==> r[i] == s[i]
    ensures Filter(r, p) == Filter(s, p)
    decreases |s|
  {
    if |s| > 0 {
      FilterSameMask(r[..|r| - 1], s[..|s| - 1], p);
    }
  }

  /** The display name holds only ASCII letters and single spaces, does not
      start or end with a space, and keeps the letters of the local part in
      their order. */
  lemma DisplayNameShape(email: string)
    ensures LettersAndSpaces(DisplayName(email))
    ensures NoDoubleSpace(DisplayName(email))
    ensures var n := DisplayName(email); |n| > 0 ==> n[0] != ' ' && n[|n| - 1] != ' '
    ensures Letters(DisplayName(email)) == Letters(LocalPart(email))
  {
    var l := LocalPart(email);
    var c := Collapse(Sanitize(l));
    SanitizeKeepsLetters(l);
    CollapseKeepsLetters(Sanitize(l));
    TrimKeepsLetters(c);
    TrimKeepsShape(c);
  }

  /** The local part ends at the first '@'. */
  lemma {:induction false} LocalPartBeforeAt(x: string, domain: string)
    requires '@' !in x
    ensures LocalPart(x + "@" + domain) == x
    decreases |x|
  {
    if |x| > 0 {
      assert (x + "@" + domain)[1..] == x[1..] + "@" + domain;
      LocalPartBeforeAt(x[1..], domain);
      assert x == [x[0]] + x[1..];
    } else {
      assert x + "@" + domain == "@" + domain;
    }
  }

  /** A word of letters holds no space. */
  lemma NoSpaceInWord(w: string)
    requires forall i :: 0 <= i < |w| ==> IsAsciiLetter(w[i])
    ensures ' ' !in w
  {
    forall i | 0 <= i < |w| ensures w[i] != ' ' {
      assert IsAsciiLetter(w[i]);
    }
  }

  /** Sanitizing two words around a separator without letters keeps the
      words and turns the separator into a run of spaces. */
  lemma SanitizeWordBreak(w1: string, sep: string, w2: string)
    requires forall i :: 0 <= i < |w1| ==> IsAsciiLetter(w1[i])
    requires forall i :: 0 <= i < |w2| ==> IsAsciiLetter(w2[i])
    requires forall i :: 0 <= i < |sep| ==> !IsAsciiLetter(sep[i])
    ensures Sanitize(w1 + sep + w2) == w1 + Sanitize(sep) + w2
    ensures AllSpaces(Sanitize(sep))
  {
    var local := w1 + sep + w2;
    var r := Sanitize(local);
    var sp := Sanitize(sep);
    forall i | 0 <= i < |local| ensures r[i] == (w1 + sp + w2)[i] {
      if i < |w1| { assert local[i] == w1[i]; }
      else if i < |w1| + |sep| { assert local[i] == sep[i - |w1|]; }
      else { assert local[i] == w2[i - |w1| - |sep|]; }
    }
  }

  /** A string that neither starts nor ends with a space is its own trim. */
  lemma TrimUntouched(n: string)
    requires |n| > 0 && n[0] != ' ' && n[|n| - 1] != ' '
    ensures Trim(n) == n
  {
    assert TrimStart(n) == n;
    assert TrimEnd(n) == n;
  }

  /** An address whose local part is two words joined by any run of
      characters that are neither letters nor '@' (a dot, an underscore,
      digits) yields the two words separated by a single space. */
  lemma DisplayNameWordBreak(w1: string, sep: string, w2: string, domain: string)
    requires |w1| > 0 && |w2| > 0 && |sep| > 0
    requires forall i :: 0 <= i < |w1| ==> IsAsciiLetter(w1[i])
    requires forall i :: 0 <= i < |w2| ==> IsAsciiLetter(w2[i])
    requires forall i :: 0 <= i < |sep| ==> !IsAsciiLetter(sep[i]) && sep[i] != '@'
    ensures DisplayName(w1 + sep + w2 + "@" + domain) == w1 + " " + w2
  {
    var local := w1 + sep + w2;
    assert '@' !in local by {
      forall i | 0 <= i < |local| ensures local[i] != '@' {
        if i < |w1| { assert local[i] == w1[i]; }
        else if i < |w1| + |sep| { assert local[i] == sep[i - |w1|]; }
        else { assert local[i] == w2[i - |w1| - |sep|]; }
      }
    }
    var n := w1 + " " + w2;
    assert n[0] == w1[0] && n[|n| - 1] == w2[|w2| - 1];
    calc {
      DisplayName(w1 + sep + w2 + "@" + domain);
    == { LocalPartBeforeAt(local, domain); }
      Trim(Collapse(Sanitize(local)));
    == { SanitizeWordBreak(w1, sep, w2); }
      Trim(Collapse(w1 + Sanitize(sep) + w2));
    == { NoSpaceInWord(w1); NoSpaceInWord(w2); CollapseWordBreak(w1, Sanitize(sep), w2); }
      Trim(n);
    == { TrimUntouched(n); }
      n;
    }
  }

  class AuthSession {
    var user: Option<User>

    /** No one is logged in at first. */
    constructor ()
      ensures user == None
    {
      user := None;
    }

    /** The mount effect: a saved session, when there is one, becomes the
        current user. */
    method Restore(saved: Option<User>)
      modifies this
      ensures user == if saved.Some? then saved else old(user)
    {
      if saved.Some? {
        user := saved;
      }
    }

    /** `login`: any password is accepted; the new user has the given id, the
        derived display name, the address as typed and the chosen role. */
    method Login(email: string, password: string, role: Role, newId: string)
      modifies this
      ensures user == Some(User(newId, DisplayName(email), email, role))
      ensures IsAuthenticated()
    {
      user := Some(User(newId, DisplayName(email), email, role));
    }

    /** `logout`: no one is logged in afterwards. */
    method Logout()
      modifies this
      ensures user == None
      ensures !IsAuthenticated()
    {
      user := None;
    }

    /** `!!user` */
    predicate IsAuthenticated(): (b: bool)
      reads this
      ensures b <==> user.Some?
    {
      user.Some?
    }
  }
}
