/** The closed set of movie genres: the backed enum of the server and the
    label constant of the client, which carry the same eighteen strings. */
module GenreEnum {
  import opened Wrappers
  import opened Text

  /** One case per genre, in declaration order. */
  datatype Genre =
    | Action | Adventure | Animation | Biography | Comedy | Documentary
    | Drama | Fiction | Fantasy | History | Horror | Music
    | Police | Romance | SciFi | Thriller | War | Western

  /** The backing string of a case (`$genre->value`). */
  function Value(g: Genre): (r: string)
    ensures r != []
  {
    match g
    case Action => "Action"
    case Adventure => "Adventure"
    case Animation => "Animation"
    case Biography => "Biography"
    case Comedy => "Comedy"
    case Documentary => "Documentary"
    case Drama => "Drama"
    case Fiction => "Fiction"
    case Fantasy => "Fantasy"
    case History => "History"
    case Horror => "Horror"
    case Music => "Music"
    case Police => "Police"
    case Romance => "Romance"
    case SciFi => "Sci-Fi"
    case Thriller => "Thriller"
    case War => "War"
    case Western => "Western"
  }

  /** `Genre::cases()`: every case, in declaration order. */
  const Cases: seq<Genre> :=
    [ Action, Adventure, Animation, Biography, Comedy, Documentary,
      Drama, Fiction, Fantasy, History, Horror, Music,
      Police, Romance, SciFi, Thriller, War, Western ]

  /** The position of a case in the declaration, counting from 0. */
  function Position(g: Genre): (p: nat)
    ensures p < 18
  {
    match g
    case Action => 0
    case Adventure => 1
    case Animation => 2
    case Biography => 3
    case Comedy => 4
    case Documentary => 5
    case Drama => 6
    case Fiction => 7
    case Fantasy => 8
    case History => 9
    case Horror => 10
    case Music => 11
    case Police => 12
    case Romance => 13
    case SciFi => 14
    case Thriller => 15
    case War => 16
    case Western => 17
  }

  lemma PositionInCases(g: Genre)
    ensures Position(g) < |Cases| && Cases[Position(g)] == g
  {
  }

  /** The case at position i of `cases()` is declared at position i. */
  lemma CaseAt(i: nat)
    requires i < |Cases|
    ensures Position(Cases[i]) == i
  {
    if i == 0 {
    } else if i == 1 {
    } else if i == 2 {
    } else if i == 3 {
    } else if i == 4 {
    } else if i == 5 {
    } else if i == 6 {
    } else if i == 7 {
    } else if i == 8 {
    } else if i == 9 {
    } else if i == 10 {
    } else if i == 11 {
    } else if i == 12 {
    } else if i == 13 {
    } else if i == 14 {
    } else if i == 15 {
    } else if i == 16 {
    } else {
    }
  }

  /** The enum has exactly eighteen cases and `cases()` lists each of them once. */
  lemma CasesListEveryCaseOnce(g: Genre)
    ensures |Cases| == 18
    ensures g in Cases
    ensures forall i, j :: 0 <= i < j < |Cases| ==> Cases[i] != Cases[j]
  {
    PositionInCases(g);
    forall i, j | 0 <= i < j < |Cases| ensures Cases[i] != Cases[j] {
      CaseAt(i);
      CaseAt(j);
    }
  }

  /** `cases()` misses no case. */
  lemma EveryCaseListed()
    ensures forall g :: g in Cases
  {
    forall g ensures g in Cases {
      PositionInCases(g);
    }
  }

  /** Distinct cases have distinct backing strings. */
  lemma ValueInjective(g: Genre, h: Genre)
    requires Value(g) == Value(h)
    ensures g == h
  {
  }

  /** What tells the labels apart ignoring case: the length, the first
      letter and the last letter, both lower-cased. */
  function CaseKey(s: string): (int, char, char)
    requires s != []
  {
    (|s|, LowerChar(s[0]), LowerChar(s[|s| - 1]))
  }

  /** Strings equal ignoring case have the same key. */
  lemma CaseKeyIgnoresCase(a: string, b: string)
    requires a != [] && b != []
    requires EqualsIgnoreCase(a, b)
    ensures CaseKey(a) == CaseKey(b)
  {
    assert |a| == |Lower(a)| == |Lower(b)| == |b|;
    assert LowerChar(a[0]) == Lower(a)[0] == Lower(b)[0] == LowerChar(b[0]);
    assert LowerChar(a[|a| - 1]) == Lower(a)[|a| - 1] == Lower(b)[|b| - 1] == LowerChar(b[|b| - 1]);
  }

  /** The case whose label has a given key. */
  function CaseOfKey(k: (int, char, char)): Option<Genre> {
    match k
    case (6, 'a', 'n') => Some(Action)
    case (9, 'a', 'e') => Some(Adventure)
    case (9, 'a', 'n') => Some(Animation)
    case (9, 'b', 'y') => Some(Biography)
    case (6, 'c', 'y') => Some(Comedy)
    case (11, 'd', 'y') => Some(Documentary)
    case (5, 'd', 'a') => Some(Drama)
    case (7, 'f', 'n') => Some(Fiction)
    case (7, 'f', 'y') => Some(Fantasy)
    case (7, 'h', 'y') => Some(History)
    case (6, 'h', 'r') => Some(Horror)
    case (5, 'm', 'c') => Some(Music)
    case (6, 'p', 'e') => Some(Police)
    case (7, 'r', 'e') => Some(Romance)
    case (6, 's', 'i') => Some(SciFi)
    case (8, 't', 'r') => Some(Thriller)
    case (3, 'w', 'r') => Some(War)
    case (7, 'w', 'n') => Some(Western)
    case _ => None
  }

  lemma CaseOfOwnKey(g: Genre)
    ensures Value(g) != [] && CaseOfKey(CaseKey(Value(g))) == Some(g)
  {
  }

  /** Distinct cases have backing strings that differ even ignoring case. */
  lemma ValueInjectiveIgnoringCase(g: Genre, h: Genre)
    requires EqualsIgnoreCase(Value(g), Value(h))
    ensures g == h
  {
    CaseOfOwnKey(g);
    CaseOfOwnKey(h);
    CaseKeyIgnoresCase(Value(g), Value(h));
  }

  /** The backing strings of a list of cases (`array_map(fn ($g) => $g->value, ...)`). */
  function ValuesOf(cs: seq<Genre>): (r: seq<string>)
    ensures |r| == |cs|
    ensures forall i :: 0 <= i < |cs| ==> r[i] == Value(cs[i])
  {
    seq(|cs|, i requires 0 <= i < |cs| => Value(cs[i]))
  }

  /** The eighteen labels in declaration order: the backing strings of `cases()`. */
  function Labels(): (r: seq<string>)
    ensures |r| == |Cases|
    ensures forall i :: 0 <= i < |Cases| ==> r[i] == Value(Cases[i])
  {
    ValuesOf(Cases)
  }

  /** The labels are pairwise distinct. */
  lemma LabelsDistinct()
    ensures |Labels()| == 18
    ensures forall i, j :: 0 <= i < j < |Labels()| ==> Labels()[i] != Labels()[j]
  {
    var ls := Labels();
    forall i, j | 0 <= i < j < |ls| ensures ls[i] != ls[j] {
      if ls[i] == ls[j] {
        ValueInjective(Cases[i], Cases[j]);
        CaseAt(i);
        CaseAt(j);
      }
    }
  }

  /** The first case of `cs` whose backing string is exactly `s`. */
  function FindByValue(cs: seq<Genre>, s: string): (r: Option<Genre>)
    ensures r.Some? ==> r.value in cs && Value(r.value) == s
    ensures r.None? ==> forall g :: g in cs ==> Value(g) != s
  {
    if cs == [] then None
    else if Value(cs[0]) == s then Some(cs[0])
    else FindByValue(cs[1..], s)
  }

  /** `Genre::tryFrom($s)`: the case backed by exactly `s`, compared case
      for case and character for character; `null` for any other string. */
  function TryFrom(s: string): (r: Option<Genre>)
    ensures r.Some? ==> Value(r.value) == s
    ensures r.None? ==> forall g :: Value(g) != s
  {
    EveryCaseListed();
    FindByValue(Cases, s)
  }

  /** A string among the backing strings of a list is found in that list. */
  lemma {:induction false} FindsListedValue(cs: seq<Genre>, s: string)
    requires s in ValuesOf(cs)
    ensures FindByValue(cs, s).Some?
  {
    if Value(cs[0]) != s {
      assert ValuesOf(cs) == [Value(cs[0])] + ValuesOf(cs[1..]);
      FindsListedValue(cs[1..], s);
    }
  }

  /** Every label names a case. */
  lemma LabelsAreAccepted(s: string)
    requires s in Labels()
    ensures TryFrom(s).Some?
  {
    FindsListedValue(Cases, s);
  }

  /** Every string that names a case is a label. */
  lemma AcceptedAreLabels(s: string)
    requires TryFrom(s).Some?
    ensures s in Labels()
  {
    var g := TryFrom(s).value;
    PositionInCases(g);
    assert Labels()[Position(g)] == s;
  }

  /** `tryFrom` accepts exactly the labels. */
  lemma TryFromAcceptsExactlyLabels(s: string)
    ensures TryFrom(s).Some? <==> s in Labels()
  {
    if s in Labels() {
      LabelsAreAccepted(s);
    }
    if TryFrom(s).Some? {
      AcceptedAreLabels(s);
    }
  }

  /** Looking up a case's own backing string gives that case back. */
  lemma TryFromValue(g: Genre)
    ensures TryFrom(Value(g)) == Some(g)
  {
    CasesListEveryCaseOnce(g);
    var r := TryFrom(Value(g));
    ValueInjective(r.value, g);
  }

  /** The lookup is case-sensitive: a lower-cased label is not a label. */
  lemma TryFromIsCaseSensitive()
    ensures TryFrom("action") == None
    ensures TryFrom("Action") == Some(Action)
  {
    TryFromValue(Action);
    assert forall g :: Value(g) != "action";
  }

  /** The error `Genre::from` throws for a string that backs no case. */
  datatype ValueError = ValueError(value: string)

  /** `Genre::from($s)`: like `tryFrom`, but an unknown string is an error. */
  function From(s: string): (r: Result<Genre, ValueError>)
    ensures r.Success? <==> TryFrom(s).Some?
    ensures r.Success? ==> Value(r.value) == s
    ensures r.Failure? ==> r.error == ValueError(s)
  {
    match TryFrom(s)
    case Some(g) => Success(g)
    case None => Failure(ValueError(s))
  }

  /** `from($g->value)` is `$g`, so its backing string is the one looked up. */
  lemma FromValue(g: Genre)
    ensures From(Value(g)) == Success(g)
    ensures Value(From(Value(g)).value) == Value(g)
  {
    TryFromValue(g);
  }

  /** A list that holds each case's label at that case's position is the
      list of labels. */
  lemma IsLabelList(r: seq<string>)
    requires |r| == |Cases|
    requires forall g :: r[Position(g)] == Value(g)
    ensures r == Labels()
  {
    forall i | 0 <= i < |r| ensures r[i] == Labels()[i] {
      CaseAt(i);
      assert r[Position(Cases[i])] == Value(Cases[i]);
    }
  }
}
