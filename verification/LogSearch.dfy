/**
 Which rows the two filters of `query_logs` select, told without lower-casing: equal service names, and messages that
 have the searched text somewhere, each up to the case of ASCII letters.

 The search of `query_logs` (dockfleet/health/logs.py) is documented as case-sensitive; SQLite's `LIKE`, which it
 becomes, ignores the case of ASCII letters. Exactly which searches that makes a difference for.
 */
module LogSearch {
  import opened Wrappers
  import opened Text
  import opened LogExport

  predicate IsLetter(c: char) {
    'a' <= c <= 'z' || 'A' <= c <= 'Z'
  }

  ghost predicate HasLetter(q: string) {
    exists i | 0 <= i < |q| :: IsLetter(q[i])
  }

  /** What the documentation promises of a search for `q`: it finds the messages that contain it as it is written. */
  ghost predicate IsCaseSensitive(q: string) {
    forall row: Row | row.message.Some? ::
      Filter(None, Some(q)).Matches(row) <==> Contains(row.message.value, q)
  }

  /** Lower-casing changes nothing that is not a letter, and makes no letter into anything else. */
  lemma OnlyLettersChange(a: char, b: char)
    requires !IsLetter(b)
    ensures LowerChar(b) == b
    ensures LowerChar(a) == b <==> a == b
  {
  }

  lemma LowerKeeps(q: string)
    requires !HasLetter(q)
    ensures Lower(q) == q
  {
    forall i | 0 <= i < |q|
      ensures Lower(q)[i] == q[i]
    {
      OnlyLettersChange(q[i], q[i]);
    }
  }

  lemma SamePrefix(message: string, q: string)
    requires !HasLetter(q)
    ensures q <= Lower(message) <==> q <= message
  {
    forall i | 0 <= i < |q| && i < |message|
      ensures Lower(message)[i] == q[i] <==> message[i] == q[i]
    {
      OnlyLettersChange(message[i], q[i]);
    }
    if |q| <= |message| {
      assert q <= message <==> forall i | 0 <= i < |q| :: message[i] == q[i];
      assert q <= Lower(message) <==> forall i | 0 <= i < |q| :: Lower(message)[i] == q[i];
    }
  }

  lemma {:induction false} SameSearch(message: string, q: string)
    requires !HasLetter(q)
    ensures Contains(Lower(message), q) <==> Contains(message, q)
  {
    SamePrefix(message, q);
    if message != "" {
      assert Lower(message)[1..] == Lower(message[1..]);
      SameSearch(message[1..], q);
    }
  }

  /** The same text with the case of one letter changed. */
  function Flipped(c: char): char
    requires IsLetter(c)
  {
    if 'a' <= c <= 'z' then (c as int - 32) as char else LowerChar(c)
  }

  lemma {:induction false} ContainsIsShorter(s: string, part: string)
    requires Contains(s, part)
    ensures |part| <= |s|
    ensures |part| == |s| ==> part == s
  {
    if !(part <= s) {
      ContainsIsShorter(s[1..], part);
    }
  }

  /** A letter whose case is changed is still found, and is not in the message as it is written. */
  lemma FlippedIsFound(q: string, i: nat)
    requires i < |q| && IsLetter(q[i])
    ensures var message := q[i := Flipped(q[i])];
            Contains(Lower(message), Lower(q)) && !Contains(message, q)
  {
    var message := q[i := Flipped(q[i])];
    assert LowerChar(Flipped(q[i])) == LowerChar(q[i]) && Flipped(q[i]) != q[i];
    assert Lower(message) == Lower(q);
    if Contains(message, q) {
      ContainsIsShorter(message, q);
    }
  }

  /** A search is case-sensitive, as documented, if and only if it has no ASCII letter. */
  lemma CaseSensitiveExactly(q: string)
    ensures IsCaseSensitive(q) <==> !HasLetter(q)
  {
    if HasLetter(q) {
      var i :| 0 <= i < |q| && IsLetter(q[i]);
      FlippedIsFound(q, i);
      var row := Row(Key(0, 0), "", None, Some(q[i := Flipped(q[i])]), None);
      assert Filter(None, Some(q)).Matches(row) && !Contains(row.message.value, q);
    } else {
      LowerKeeps(q);
      forall row: Row | row.message.Some?
        ensures Filter(None, Some(q)).Matches(row) <==> Contains(row.message.value, q)
      {
        SameSearch(row.message.value, q);
        EmptyIsEverywhere(row.message.value);
      }
    }
  }

  lemma EmptyIsEverywhere(message: string)
    ensures Contains(message, "")
  {
  }

  /** A search for "a" finds a message that has only "A". */
  lemma LowerCaseFindsUpperCase()
    ensures Filter(None, Some("a")).Matches(Row(Key(0, 0), "api", None, Some("A"), None))
    ensures !Contains("A", "a")
  {
    assert Lower("A") == "a" == Lower("a");
    assert !("a" <= "A") && "A"[1..] == "";
  }

  // ---------------------------------------------------------------- what the filters select

  /** The same character, or the two cases of one ASCII letter. */
  predicate SameLetter(a: char, b: char) {
    || a == b
    || ('a' <= a <= 'z' && b == UpperChar(a))
    || ('a' <= b <= 'z' && a == UpperChar(b))
  }

  ghost predicate EqualUpToCase(a: string, b: string) {
    |a| == |b| && forall i | 0 <= i < |a| :: SameLetter(a[i], b[i])
  }

  lemma LowerIsCase(a: char, b: char)
    ensures LowerChar(a) == LowerChar(b) <==> SameLetter(a, b)
  {
  }

  lemma LowerIsEqualUpToCase(a: string, b: string)
    ensures Lower(a) == Lower(b) <==> EqualUpToCase(a, b)
  {
    forall i | 0 <= i < |a| && |a| == |b|
      ensures Lower(a)[i] == Lower(b)[i] <==> SameLetter(a[i], b[i])
    {
      LowerIsCase(a[i], b[i]);
    }
  }

  /** A service filter selects exactly the rows of that service, in whatever case it is written. */
  lemma ServiceFilterExactly(service: string, row: Row)
    requires service != ""
    ensures Filter(Some(service), None).Matches(row) <==> EqualUpToCase(row.service, service)
    ensures !HasLetter(service) ==> (Filter(Some(service), None).Matches(row) <==> row.service == service)
  {
    LowerIsEqualUpToCase(row.service, service);
    if !HasLetter(service) && EqualUpToCase(row.service, service) {
      forall i | 0 <= i < |service|
        ensures row.service[i] == service[i]
      {
        assert !IsLetter(service[i]) && SameLetter(row.service[i], service[i]);
      }
    }
  }

  ghost predicate FoundAt(message: string, q: string, i: nat) {
    i + |q| <= |message| && EqualUpToCase(message[i..i + |q|], q)
  }

  /** A search selects exactly the rows that have a message with the text somewhere in it, in whatever case. */
  lemma SearchExactly(q: string, row: Row)
    requires q != ""
    ensures Filter(None, Some(q)).Matches(row)
       <==> row.message.Some? && exists i: nat :: FoundAt(row.message.value, q, i)
  {
    if row.message.Some? {
      var message := row.message.value;
      ContainsIsSomewhere(Lower(message), Lower(q));
      forall i: nat
        ensures HasAt(Lower(message), Lower(q), i) <==> FoundAt(message, q, i)
      {
        FoundWhereLowerIs(message, q, i);
      }
    }
  }

  lemma FoundWhereLowerIs(message: string, q: string, i: nat)
    ensures HasAt(Lower(message), Lower(q), i) <==> FoundAt(message, q, i)
  {
    if i + |q| <= |message| {
      assert Lower(message)[i..i + |q|] == Lower(message[i..i + |q|]);
      LowerIsEqualUpToCase(message[i..i + |q|], q);
    }
  }

  /** Both filters together select what both select; one that is missing or empty selects everything. */
  lemma FiltersCombine(service: Option<string>, q: Option<string>, row: Row)
    ensures Filter(service, q).Matches(row) <==> Filter(service, None).Matches(row) && Filter(None, q).Matches(row)
    ensures service == None || service == Some("") ==> Filter(service, None).Matches(row)
    ensures q == None || q == Some("") ==> Filter(None, q).Matches(row)
  {
  }
}
