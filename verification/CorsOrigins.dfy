/** The string handling of backend/config/helper.go: trimming, and the list of CORS origins. */
module CorsOrigins {

  /** unicode.IsSpace */
  predicate IsSpace(c: char) {
    || c in "\t\n\U{b}\U{c}\r \U{85}\U{a0}"
    || c == '\U{1680}' || '\U{2000}' <= c <= '\U{200a}'
    || c == '\U{2028}' || c == '\U{2029}' || c == '\U{202f}' || c == '\U{205f}' || c == '\U{3000}'
  }

  /** The code points of white space: tab, line feed, vertical tab, form feed, carriage return, space, next line,
      no-break space, and the spaces and separators further up. */
  const WHITE_SPACE: set<int> := {
    9, 10, 11, 12, 13, 32, 133, 160, 5760,
    8192, 8193, 8194, 8195, 8196, 8197, 8198, 8199, 8200, 8201, 8202,
    8232, 8233, 8239, 8287, 12288
  }

  lemma IsSpaceIff(c: char)
    ensures IsSpace(c) <==> c as int in WHITE_SPACE
  {
  }

  function TrimLeft(s: string): string {
    if s != [] && IsSpace(s[0]) then TrimLeft(s[1..]) else s
  }

  function TrimRight(s: string): string {
    if s != [] && IsSpace(s[|s| - 1]) then TrimRight(s[..|s| - 1]) else s
  }

  /** strings.TrimSpace */
  function TrimSpace(s: string): string {
    TrimRight(TrimLeft(s))
  }

  predicate Trimmed(s: string) {
    s == [] || (!IsSpace(s[0]) && !IsSpace(s[|s| - 1]))
  }

  predicate AllSpace(s: string) {
    forall i :: 0 <= i < |s| ==> IsSpace(s[i])
  }

  function Split(s: string): (parts: seq<string>)
    ensures parts != []
  {
    if s == [] then [[]]
    else
      var rest := Split(s[1..]);
      if s[0] == ',' then [[]] + rest else [[s[0]] + rest[0]] + rest[1..]
  }

  function Join(parts: seq<string>): string {
    if parts == [] then [] else if |parts| == 1 then parts[0] else parts[0] + "," + Join(parts[1..])
  }

  function TrimAll(parts: seq<string>): seq<string> {
    seq(|parts|, i requires 0 <= i < |parts| => TrimSpace(parts[i]))
  }

  function ParsedOrigins(s: string): seq<string> {
    if s == "" then [] else TrimAll(Split(s))
  }

  method ParseCORSOrigins(s: string) returns (origins: seq<string>)
    ensures origins == ParsedOrigins(s)
  {
    if s == "" {
      return [];
    }
    var parts := Split(s);
    var slots := new string[|parts|](i requires 0 <= i < |parts| => parts[i]);
    for i := 0 to slots.Length
      invariant forall j :: 0 <= j < i ==> slots[j] == TrimSpace(parts[j])
      invariant forall j :: i <= j < slots.Length ==> slots[j] == parts[j]
    {
      slots[i] := TrimSpace(slots[i]);
    }
    return slots[..];
  }

  // ---- trimming -------------------------------------------------------------------------------

  lemma FrontSlices(s: string, m: nat)
    requires s != [] && m <= |s| - 1
    ensures s[1..][m..] == s[m + 1..] && s[..m + 1] == [s[0]] + s[1..][..m]
  {
  }

  lemma BackSlices(s: string, n: nat)
    requires s != [] && n <= |s| - 1
    ensures s[..|s| - 1][..n] == s[..n] && s[n..] == s[..|s| - 1][n..] + [s[|s| - 1]]
  {
  }

  lemma SpaceGrows(s: string, c: char)
    requires AllSpace(s) && IsSpace(c)
    ensures AllSpace([c] + s) && AllSpace(s + [c])
  {
  }

  lemma EmptyIsSpace()
    ensures AllSpace("")
  {
  }

  lemma {:induction false} TrimLeftDrops(s: string) returns (n: nat)
    ensures n <= |s| && TrimLeft(s) == s[n..] && AllSpace(s[..n])
    ensures TrimLeft(s) == [] || !IsSpace(TrimLeft(s)[0])
    decreases |s|
  {
    hide IsSpace, AllSpace;
    EmptyIsSpace();
    if s != [] && IsSpace(s[0]) {
      var m := TrimLeftDrops(s[1..]);
      n := m + 1;
      FrontSlices(s, m);
      SpaceGrows(s[1..][..m], s[0]);
    } else {
      n := 0;
    }
  }

  lemma {:induction false} TrimRightDrops(s: string) returns (n: nat)
    ensures n <= |s| && TrimRight(s) == s[..n] && AllSpace(s[n..])
    ensures TrimRight(s) == [] || !IsSpace(TrimRight(s)[n - 1])
    decreases |s|
  {
    hide IsSpace, AllSpace;
    EmptyIsSpace();
    n := |s|;
    if s != [] && IsSpace(s[|s| - 1]) {
      n := TrimRightDrops(s[..|s| - 1]);
      BackSlices(s, n);
      SpaceGrows(s[..|s| - 1][n..], s[|s| - 1]);
    } else {
      assert s[..n] == s && s[n..] == "";
    }
  }

  /** Trimming cuts white space off both ends and nothing else. */
  lemma TrimSpaceCutsEnds(s: string) returns (i: nat, j: nat)
    ensures i <= j <= |s| && TrimSpace(s) == s[i..j] && AllSpace(s[..i]) && AllSpace(s[j..])
    ensures Trimmed(TrimSpace(s))
  {
    hide IsSpace;
    i := TrimLeftDrops(s);
    var n := TrimRightDrops(s[i..]);
    j := i + n;
    assert s[i..][..n] == s[i..j];
    assert s[i..][n..] == s[j..];
    assert n > 0 ==> s[i..][..n][0] == s[i..][0];
  }

  /** So what trimming removes at either end are white space characters, and it stops at the first other one. */
  lemma TrimSpaceRemoves(s: string)
    ensures exists i, j ::
      && 0 <= i <= j <= |s| && TrimSpace(s) == s[i..j]
      && (forall k :: 0 <= k < i || j <= k < |s| ==> s[k] as int in WHITE_SPACE)
      && (i < j ==> s[i] as int !in WHITE_SPACE && s[j - 1] as int !in WHITE_SPACE)
  {
    var i, j := TrimSpaceCutsEnds(s);
    hide TrimSpace, WHITE_SPACE;
    forall k | 0 <= k < |s| ensures IsSpace(s[k]) <==> s[k] as int in WHITE_SPACE {
      IsSpaceIff(s[k]);
    }
    assert forall k :: 0 <= k < i ==> s[..i][k] == s[k];
    assert forall k :: j <= k < |s| ==> s[j..][k - j] == s[k];
    hide IsSpace;
    assert i < j ==> s[i..j][0] == s[i] && s[i..j][j - i - 1] == s[j - 1];
  }

  lemma TrimmedStays(s: string)
    requires Trimmed(s)
    ensures TrimSpace(s) == s
  {
  }

  lemma TrimmedEmptyIff(s: string)
    ensures TrimSpace(s) == "" <==> AllSpace(s)
  {
    hide IsSpace;
    var i, j := TrimSpaceCutsEnds(s);
    assert i < j ==> TrimSpace(s)[0] == s[i];
    if i == j {
      assert s == s[..i] + s[j..];
    }
  }

  // ---- splitting ------------------------------------------------------------------------------

  function Commas(s: string): nat {
    if s == [] then 0 else (if s[0] == ',' then 1 else 0) + Commas(s[1..])
  }

  ghost predicate CommaFree(s: string) {
    forall i :: 0 <= i < |s| ==> s[i] != ','
  }

  ghost predicate AllCommaFree(parts: seq<string>) {
    forall i :: 0 <= i < |parts| ==> CommaFree(parts[i])
  }

  lemma {:induction false} SplitCounts(s: string)
    ensures |Split(s)| == Commas(s) + 1
    decreases |s|
  {
    if s != [] {
      SplitCounts(s[1..]);
    }
  }

  lemma {:induction false} PiecesAreCommaFree(s: string)
    ensures AllCommaFree(Split(s))
    decreases |s|
  {
    if s != [] {
      PiecesAreCommaFree(s[1..]);
      var rest, parts := Split(s[1..]), Split(s);
      forall i | 0 <= i < |parts| ensures CommaFree(parts[i]) {
        if i > 0 {
          assert parts[i] == if s[0] == ',' then rest[i - 1] else rest[i];
        } else if s[0] != ',' {
          assert CommaFree(rest[0]);
        }
      }
    }
  }

  lemma {:induction false} SplitJoins(s: string)
    ensures Join(Split(s)) == s
    decreases |s|
  {
    if s != [] {
      SplitJoins(s[1..]);
      var rest := Split(s[1..]);
      assert s == [s[0]] + s[1..];
      if s[0] == ',' {
        CommaJoins(rest);
      } else {
        JoinGrows(s[0], rest);
      }
    }
  }

  lemma CommaJoins(parts: seq<string>)
    requires parts != []
    ensures Join([[]] + parts) == [','] + Join(parts)
  {
    assert ([[]] + parts)[1..] == parts;
    assert Join([[]] + parts) == [] + "," + Join(parts);
  }

  lemma {:induction false} SplitIsExact(s: string)
    ensures |Split(s)| == Commas(s) + 1 && AllCommaFree(Split(s)) && Join(Split(s)) == s
  {
    SplitCounts(s);
    PiecesAreCommaFree(s);
    SplitJoins(s);
  }

  lemma JoinGrows(c: char, parts: seq<string>)
    requires parts != []
    ensures Join([[c] + parts[0]] + parts[1..]) == [c] + Join(parts)
  {
    var grown := [[c] + parts[0]] + parts[1..];
    if |parts| > 1 {
      assert grown[1..] == parts[1..];
      assert ([c] + parts[0]) + "," + Join(parts[1..]) == [c] + (parts[0] + "," + Join(parts[1..]));
    }
  }

  lemma {:induction false} SplitOfJoin(parts: seq<string>)
    requires parts != [] && AllCommaFree(parts)
    ensures Split(Join(parts)) == parts
    decreases |parts|
  {
    if |parts| == 1 {
      SplitOfPlain(parts[0]);
      assert parts == [parts[0]];
    } else {
      SplitOfJoin(parts[1..]);
      SplitAtComma(parts[0], Join(parts[1..]));
      assert parts[0] + "," + Join(parts[1..]) == parts[0] + ("," + Join(parts[1..]));
      assert parts == [parts[0]] + parts[1..];
    }
  }

  lemma {:induction false} SplitOfPlain(s: string)
    requires CommaFree(s)
    ensures Split(s) == [s]
    decreases |s|
  {
    if s != [] {
      SplitOfPlain(s[1..]);
      assert s == [s[0]] + s[1..];
    }
  }

  lemma {:induction false} SplitAtComma(s: string, t: string)
    requires CommaFree(s)
    ensures Split(s + ("," + t)) == [s] + Split(t)
    decreases |s|
  {
    if s == [] {
      assert s + ("," + t) == "," + t;
      assert ("," + t)[1..] == t;
    } else {
      SplitAtComma(s[1..], t);
      assert (s + ("," + t))[1..] == s[1..] + ("," + t);
      assert s == [s[0]] + s[1..];
      assert ([s[1..]] + Split(t))[1..] == Split(t);
    }
  }

  // ---- the list of origins --------------------------------------------------------------------

  /** Every origin is trimmed and has no comma; there is one more of them than commas, or none. */
  lemma OriginsAreNormal(s: string)
    ensures |ParsedOrigins(s)| == (if s == "" then 0 else Commas(s) + 1)
    ensures forall i :: 0 <= i < |ParsedOrigins(s)| ==> Trimmed(ParsedOrigins(s)[i]) && CommaFree(ParsedOrigins(s)[i])
  {
    hide IsSpace, TrimSpace, Trimmed;
    SplitIsExact(s);
    forall k | 0 <= k < |ParsedOrigins(s)|
      ensures Trimmed(ParsedOrigins(s)[k]) && CommaFree(ParsedOrigins(s)[k])
    {
      assert CommaFree(Split(s)[k]);
      var i, j := TrimSpaceCutsEnds(Split(s)[k]);
    }
  }

  /** Parsing the origins joined again gives the same list, exactly unless the text was non-empty
      white space: that parses to one empty origin, whose join is the empty text and parses to none. */
  lemma ReparsingIsStableIff(s: string)
    ensures ParsedOrigins(Join(ParsedOrigins(s))) == ParsedOrigins(s) <==> s == "" || !AllSpace(s)
  {
    hide IsSpace, TrimSpace, Trimmed;
    if s != "" {
      var origins := ParsedOrigins(s);
      OriginsAreNormal(s);
      SplitOfJoin(origins);
      EmptyJoin(origins);
      if Join(origins) != "" {
        forall i | 0 <= i < |origins| ensures TrimSpace(origins[i]) == origins[i] {
          TrimmedStays(origins[i]);
        }
        assert TrimAll(origins) == origins;
      }
      JoinEmptyIffSpace(s);
    }
  }

  lemma EmptyJoin(parts: seq<string>)
    requires parts != []
    ensures Join(parts) == "" <==> |parts| == 1 && parts[0] == ""
  {
  }

  lemma JoinEmptyIffSpace(s: string)
    requires s != ""
    ensures Join(ParsedOrigins(s)) == "" <==> AllSpace(s)
  {
    EmptyJoin(ParsedOrigins(s));
    SplitIsExact(s);
    if AllSpace(s) {
      forall i | 0 <= i < |s| ensures s[i] != ',' {
        assert IsSpace(s[i]);
      }
      SplitOfPlain(s);
      TrimmedEmptyIff(s);
    } else if |Split(s)| == 1 {
      assert Split(s)[0] == Join(Split(s)) == s;
      TrimmedEmptyIff(s);
    }
  }

  lemma BlankIsNotStable()
    ensures ParsedOrigins(" ") == [""] && ParsedOrigins(Join(ParsedOrigins(" "))) == []
  {
    assert TrimLeft(" ") == TrimLeft(" "[1..]) == "";
    assert Split(" ") == [" "] by {
      SplitOfPlain(" ");
    }
  }
}
