/** The fixed month table and the weekday-name normalisation the loader
    filters with (bikeshare.py lines 8, 72 and 76). */
module Calendar {
  import opened Wrappers

  /** The only selectable months, in calendar order: position k holds
      month number k + 1. */
  const Months: seq<string> := ["january", "february", "march", "april", "may", "june"]

  /** `list.index`: the position of the first occurrence of `x`, or None where
      Python raises ValueError. */
  function IndexOf<T(==)>(s: seq<T>, x: T): (r: Option<nat>)
    ensures r.None? <==> x !in s
    ensures r.Some? ==> r.value < |s| && s[r.value] == x
    ensures r.Some? ==> forall j :: 0 <= j < r.value ==> s[j] != x
  {
    if |s| == 0 then None
    else if s[0] == x then Some(0)
    else
      match IndexOf(s[1..], x)
      case None => None
      case Some(k) => Some(k + 1)
  }

  /** `months.index(month) + 1`: the calendar number of a selectable month
      name, None for any other string. */
  function MonthNumber(name: string): (r: Option<int>)
    ensures r.Some? <==> name in Months
    ensures r.Some? ==> 1 <= r.value <= 6 && Months[r.value - 1] == name
  {
    match IndexOf(Months, name)
    case None => None
    case Some(k) => Some(k + 1)
  }

  /** `months[k - 1]` for a calendar month number k >= 1: the name, or None
      where Python raises IndexError (July to December). */
  function MonthName(k: int): (r: Option<string>)
    requires k >= 1
    ensures r.Some? <==> k <= 6
    ensures r.Some? ==> r.value in Months
  {
    if k <= |Months| then Some(Months[k - 1]) else None
  }

  /** Name to number and back is the identity on the month table. */
  lemma MonthNameOfNumber(name: string)
    requires name in Months
    ensures MonthNumber(name).Some?
    ensures MonthName(MonthNumber(name).value) == Some(name)
  {
  }

  /** Number to name and back is the identity on 1..6: the table has no
      repeated name, so `index` finds the same position again. */
  lemma MonthNumberOfName(k: int)
    requires k >= 1
    ensures MonthName(k).Some? ==> MonthNumber(MonthName(k).value) == Some(k)
  {
    if k <= 6 {
      var name := Months[k - 1];
      var j := IndexOf(Months, name).value;
      assert Months[j] == name;
      assert j == k - 1;
    }
  }

  predicate IsLetter(c: char) {
    'a' <= c <= 'z' || 'A' <= c <= 'Z'
  }

  predicate IsUpper(c: char) {
    'A' <= c <= 'Z'
  }

  function Upper(c: char): char {
    if 'a' <= c <= 'z' then (c as int - 32) as char else c
  }

  function Lower(c: char): char {
    if 'A' <= c <= 'Z' then (c as int + 32) as char else c
  }

  lemma CaseFacts(c: char)
    ensures IsLetter(c) ==> IsUpper(Upper(c)) && IsLetter(Upper(c)) && Lower(Upper(c)) == Lower(c)
    ensures IsLetter(c) ==> !IsUpper(Lower(c)) && IsLetter(Lower(c)) && Lower(Lower(c)) == Lower(c)
    ensures IsLetter(c) && !IsUpper(c) ==> Lower(c) == c
    ensures IsUpper(c) ==> Upper(Lower(c)) == c
  {
  }

  /** `str.title()` on ASCII text, continuing after a letter when
      `afterLetter` holds: a letter that follows a letter becomes lower case,
      any other letter upper case, and every other character is kept. */
  function TitleFrom(s: string, afterLetter: bool): (r: string)
    ensures |r| == |s|
    ensures forall i :: 0 <= i < |s| ==> Lower(r[i]) == Lower(s[i]) && (IsLetter(r[i]) <==> IsLetter(s[i]))
    ensures forall i :: 0 <= i < |s| && IsLetter(s[i]) ==>
      (IsUpper(r[i]) <==> !(if i == 0 then afterLetter else IsLetter(s[i - 1])))
    ensures forall i :: 0 <= i < |s| && !IsLetter(s[i]) ==> r[i] == s[i]
  {
    if |s| == 0 then []
    else
      var c := if !IsLetter(s[0]) then s[0] else if afterLetter then Lower(s[0]) else Upper(s[0]);
      CaseFacts(s[0]);
      var rest := TitleFrom(s[1..], IsLetter(s[0]));
      assert forall i :: 0 < i < |s| ==> ([c] + rest)[i] == rest[i - 1] && s[1..][i - 1] == s[i];
      [c] + rest
  }

  /** `str.title()`: each word starts with a capital, the rest in lower case. */
  function Title(s: string): string {
    TitleFrom(s, false)
  }

  /** Title case depends only on the letters up to case: two strings equal
      ignoring case have the same title case. */
  lemma {:induction false} TitleIgnoresCase(s: string, t: string, afterLetter: bool)
    requires |s| == |t|
    requires forall i :: 0 <= i < |s| ==> Lower(s[i]) == Lower(t[i])
    ensures TitleFrom(s, afterLetter) == TitleFrom(t, afterLetter)
  {
    if |s| > 0 {
      assert IsLetter(s[0]) <==> IsLetter(t[0]);
      TitleIgnoresCase(s[1..], t[1..], IsLetter(s[0]));
    }
  }

  /** Title-casing twice changes nothing more. */
  lemma TitleIdempotent(s: string)
    ensures Title(Title(s)) == Title(s)
  {
    TitleIgnoresCase(Title(s), s, false);
  }

  /** A word in lower case, such as the weekday names the prompt accepts,
      title-cases to its capitalised form, such as the names
      `Timestamp.day_name()` produces ("monday" to "Monday"). */
  lemma TitleOfLowerWord(s: string)
    requires |s| > 0
    requires forall i :: 0 <= i < |s| ==> 'a' <= s[i] <= 'z'
    ensures Title(s) == [Upper(s[0])] + s[1..]
  {
    var r := Title(s);
    forall i | 0 <= i < |s|
      ensures r[i] == if i == 0 then Upper(s[0]) else s[i]
    {
      assert IsLetter(s[i]) && Lower(s[i]) == s[i];
      CaseFacts(r[i]);
      if i == 0 {
        assert IsUpper(r[0]);
      } else {
        assert IsLetter(s[i - 1]);
        assert !IsUpper(r[i]);
      }
    }
    assert r == [Upper(s[0])] + s[1..];
  }
}
