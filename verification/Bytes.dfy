/** Substring search as `std::string::find` and `std::search` do it, and how the first
    occurrence behaves when text is cut in two. A byte string is modelled as `string`. */
module Bytes {
  import opened Wrappers

  predicate OccursAt(text: string, pattern: string, i: nat) {
    i + |pattern| <= |text| && text[i..i + |pattern|] == pattern
  }

  /** `text.find(pattern, from)`: the first occurrence at or after `from`. */
  function Find(text: string, pattern: string, from: nat): (r: Option<nat>)
    ensures r.Some? ==> from <= r.value && r.value + |pattern| <= |text|
    decreases |text| - from
  {
    if from + |pattern| > |text| then None
    else if OccursAt(text, pattern, from) then Some(from)
    else Find(text, pattern, from + 1)
  }

  /** `Find` returns an occurrence and there is none before it. */
  lemma {:induction false} FindIsFirst(text: string, pattern: string, from: nat)
    ensures match Find(text, pattern, from)
            case Some(i) => OccursAt(text, pattern, i) && forall j: nat | from <= j < i :: !OccursAt(text, pattern, j)
            case None => forall j: nat | from <= j :: !OccursAt(text, pattern, j)
    decreases |text| - from
  {
    if from + |pattern| <= |text| && !OccursAt(text, pattern, from) {
      FindIsFirst(text, pattern, from + 1);
    }
  }

  /** The occurrence with none before it is the one `Find` returns. */
  lemma FirstIsFound(text: string, pattern: string, from: nat, i: nat)
    requires from <= i && OccursAt(text, pattern, i)
    requires forall j: nat | from <= j < i :: !OccursAt(text, pattern, j)
    ensures Find(text, pattern, from) == Some(i)
  {
    FindIsFirst(text, pattern, from);
  }

  lemma NoneIsFound(text: string, pattern: string, from: nat)
    requires forall j: nat | from <= j :: !OccursAt(text, pattern, j)
    ensures Find(text, pattern, from) == None
  {
    FindIsFirst(text, pattern, from);
  }

  /** The first occurrence at or after `from`. */
  ghost predicate FirstFrom(text: string, pattern: string, from: nat, i: nat) {
    from <= i && OccursAt(text, pattern, i) && forall j: nat | from <= j < i :: !OccursAt(text, pattern, j)
  }

  lemma FoundIff(text: string, pattern: string, from: nat, i: nat)
    ensures Find(text, pattern, from) == Some(i) <==> FirstFrom(text, pattern, from, i)
  {
    FindIsFirst(text, pattern, from);
    if FirstFrom(text, pattern, from, i) {
      FirstIsFound(text, pattern, from, i);
    }
  }

  /** A search may skip where nothing starts. */
  lemma FindSkips(text: string, pattern: string, upTo: nat)
    requires forall j: nat | j < upTo :: !OccursAt(text, pattern, j)
    ensures Find(text, pattern, 0) == Find(text, pattern, upTo)
  {
    FindIsFirst(text, pattern, upTo);
    match Find(text, pattern, upTo)
    case None => NoneIsFound(text, pattern, 0);
    case Some(i) => FirstIsFound(text, pattern, 0, i);
  }

  lemma OccursInPrefix(text: string, more: string, pattern: string, j: nat)
    requires j + |pattern| <= |text|
    ensures OccursAt(text + more, pattern, j) == OccursAt(text, pattern, j)
  {
    assert (text + more)[j..j + |pattern|] == text[j..j + |pattern|];
  }

  lemma OccursInSuffix(text: string, drop: nat, pattern: string, j: nat)
    requires drop <= j && drop <= |text|
    ensures OccursAt(text, pattern, j) == OccursAt(text[drop..], pattern, j - drop)
  {
    if j + |pattern| <= |text| {
      assert text[j..j + |pattern|] == text[drop..][j - drop..j - drop + |pattern|];
    }
  }

  /** Appending text never disturbs an occurrence already found. */
  lemma FindStable(text: string, more: string, pattern: string, from: nat)
    requires Find(text, pattern, from).Some?
    ensures Find(text + more, pattern, from) == Find(text, pattern, from)
  {
    FindIsFirst(text, pattern, from);
    var i := Find(text, pattern, from).value;
    forall j: nat | from <= j <= i
      ensures OccursAt(text + more, pattern, j) == OccursAt(text, pattern, j)
    {
      OccursInPrefix(text, more, pattern, j);
    }
    FirstIsFound(text + more, pattern, from, i);
  }

  lemma OccursAfterTrim(text: string, drop: nat, more: string, pattern: string, j: nat)
    requires drop <= |text| && |pattern| <= |text| - drop + 1
    requires forall i: nat :: !OccursAt(text, pattern, i)
    ensures OccursAt(text + more, pattern, j) == (drop <= j && OccursAt(text[drop..] + more, pattern, j - drop))
  {
    if drop <= j {
      assert (text + more)[drop..] == text[drop..] + more;
      OccursInSuffix(text + more, drop, pattern, j);
    } else {
      OccursInPrefix(text, more, pattern, j);
    }
  }

  /** After an unsuccessful search, all but the last `|pattern| - 1` bytes may be thrown away. */
  lemma FindAfterTrim(text: string, drop: nat, more: string, pattern: string)
    requires Find(text, pattern, 0).None?
    requires drop <= |text| && |pattern| <= |text| - drop + 1
    ensures match Find(text[drop..] + more, pattern, 0)
            case None => Find(text + more, pattern, 0).None?
            case Some(i) => Find(text + more, pattern, 0) == Some(i + drop)
  {
    var whole, tail := text + more, text[drop..] + more;
    FindIsFirst(text, pattern, 0);
    FindIsFirst(tail, pattern, 0);
    forall j: nat
      ensures OccursAt(whole, pattern, j) == (drop <= j && OccursAt(tail, pattern, j - drop))
    {
      OccursAfterTrim(text, drop, more, pattern, j);
    }
    match Find(tail, pattern, 0)
    case None => NoneIsFound(whole, pattern, 0);
    case Some(i) => FirstIsFound(whole, pattern, 0, i + drop);
  }

  /** Searching from an offset is searching the rest. */
  lemma FindShifts(text: string, pattern: string, from: nat)
    requires from <= |text|
    ensures match Find(text[from..], pattern, 0)
            case None => Find(text, pattern, from).None?
            case Some(i) => Find(text, pattern, from) == Some(i + from)
  {
    FindIsFirst(text[from..], pattern, 0);
    forall j: nat | from <= j
      ensures OccursAt(text, pattern, j) == OccursAt(text[from..], pattern, j - from)
    {
      OccursInSuffix(text, from, pattern, j);
    }
    match Find(text[from..], pattern, 0)
    case None => NoneIsFound(text, pattern, from);
    case Some(i) => FirstIsFound(text, pattern, from, i + from);
  }

  lemma Drop(text: string, i: nat, j: nat)
    requires i + j <= |text|
    ensures text[i..][j..] == text[i + j..]
    ensures text[i..][..j] == text[i..i + j]
  {
  }
}
