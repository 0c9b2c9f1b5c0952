/** The identifier prefix of a model's ULIDs (`generateUlidPrefix`,
  * src/Generator/Command/GeneratorCommand.php:826-847) and the check that no two models
  * share one (`validateUlidPrefixUniqueIfNeeded`, :849-862). */
module UlidPrefix {
  import opened Wrappers
  import opened Text
  import opened Seqs
  import opened Errors

  /** `preg_match_all('/[A-Z]/', ...)`: the capital letters, in order. */
  function Capitals(s: string): (r: string)
    ensures |r| <= |s|
    decreases |s|
  {
    if |s| == 0 then [] else (if IsUpper(s[0]) then [s[0]] else []) + Capitals(s[1..])
  }

  /** Only capitals of `s` are kept. */
  lemma {:induction false} CapitalsIn(s: string)
    ensures forall i :: 0 <= i < |Capitals(s)| ==> IsUpper(Capitals(s)[i]) && Capitals(s)[i] in s
    decreases |s|
  {
    if |s| > 0 {
      CapitalsIn(s[1..]);
      var head: string := if IsUpper(s[0]) then [s[0]] else [];
      assert Capitals(s) == head + Capitals(s[1..]);
      assert forall c :: c in s[1..] ==> c in s;
    }
  }

  predicate IsVowel(c: char) {
    c == 'a' || c == 'e' || c == 'i' || c == 'o' || c == 'u' || c == 'A' || c == 'E' || c == 'I' || c == 'O' || c == 'U'
  }

  /** `preg_replace('/[aeiou]/i', '', ...)`. */
  function RemoveVowels(s: string): (r: string)
    ensures |r| <= |s|
    decreases |s|
  {
    if |s| == 0 then [] else (if IsVowel(s[0]) then [] else [s[0]]) + RemoveVowels(s[1..])
  }

  /** Only the non-vowels of `s` are kept. */
  lemma {:induction false} RemoveVowelsIn(s: string)
    ensures forall i :: 0 <= i < |RemoveVowels(s)| ==> !IsVowel(RemoveVowels(s)[i]) && RemoveVowels(s)[i] in s
    decreases |s|
  {
    if |s| > 0 {
      RemoveVowelsIn(s[1..]);
      var head: string := if IsVowel(s[0]) then [] else [s[0]];
      assert RemoveVowels(s) == head + RemoveVowels(s[1..]);
      assert forall c :: c in s[1..] ==> c in s;
    }
  }

  /** `strpos($s, $c)` for a character that occurs in `s`. */
  function FirstIndexOf(s: string, c: char): (i: nat)
    requires c in s
    ensures i < |s| && s[i] == c
    decreases |s|
  {
    if s[0] == c then 0 else FirstIndexOf(s[1..], c) + 1
  }

  /** `strpos` finds the first occurrence. */
  lemma {:induction false} FirstIndexOfFirst(s: string, c: char)
    requires c in s
    ensures forall j :: 0 <= j < FirstIndexOf(s, c) ==> s[j] != c
    decreases |s|
  {
    if s[0] != c {
      FirstIndexOfFirst(s[1..], c);
      assert forall j :: 1 <= j < |s| ==> s[j] == s[1..][j - 1];
    }
  }

  /** The name `generateUlidPrefix` works on: its class base name with every `Model` removed. */
  function PrefixSource(name: string): string {
    RemoveAll(ClassBasename(name), "Model")
  }

  /** The three rules of `generateUlidPrefix` on the name with `Model` removed. Three or more
    * capitals give the first three; exactly two give both and the character after the first
    * occurrence of the second; fewer give the first letter and the next two non-vowels, or the
    * first three characters when fewer than two non-vowels follow. Reading past the end in the
    * two-capital rule gives `None`. */
  function PrefixFrom(prefix: string): Option<string> {
    var caps := Capitals(prefix);
    if |caps| >= 3 then
      Some(ToLower(caps[..3]))
    else if |caps| == 2 then
      CapitalsIn(prefix);
      var i := FirstIndexOf(prefix, caps[1]);
      if i + 1 < |prefix| then Some(ToLower(caps + [prefix[i + 1]])) else None
    else if |prefix| == 0 then
      Some("")
    else
      var suffix := Take(RemoveVowels(prefix[1..]), 2);
      if |suffix| <= 1 then Some(ToLower(Take(prefix, 3)))
      else Some(ToLower([prefix[0]] + suffix))
  }

  /** `strtolower` of letters taken from `prefix` gives letters of `strtolower(prefix)`. */
  lemma {:induction false} LowerLetters(prefix: string, letters: string)
    requires forall i :: 0 <= i < |letters| ==> letters[i] in prefix
    ensures forall i :: 0 <= i < |letters| ==> ToLower(letters)[i] in ToLower(prefix)
  {
    forall i | 0 <= i < |letters| ensures ToLower(letters)[i] in ToLower(prefix) {
      var j :| 0 <= j < |prefix| && prefix[j] == letters[i];
      assert ToLower(prefix)[j] == ToLower(letters)[i];
    }
  }

  /** Every rule gives at most three lower-case letters of the name; only the two-capital rule
    * can fail, and it fails exactly when it reads past the end. */
  lemma {:induction false} PrefixFromShape(prefix: string)
    ensures var r := PrefixFrom(prefix);
      && (r.Some? ==> |r.value| <= 3 && forall i :: 0 <= i < |r.value| ==> !IsUpper(r.value[i]))
      && (r.Some? ==> forall i :: 0 <= i < |r.value| ==> r.value[i] in ToLower(prefix))
      && (r.None? <==> |Capitals(prefix)| == 2 && FirstIndexOf(prefix, Capitals(prefix)[1]) + 1 >= |prefix|)
  {
    var caps := Capitals(prefix);
    CapitalsIn(prefix);
    if |caps| >= 3 {
      LowerLetters(prefix, caps[..3]);
    } else if |caps| == 2 {
      var i := FirstIndexOf(prefix, caps[1]);
      if i + 1 < |prefix| {
        LowerLetters(prefix, caps + [prefix[i + 1]]);
      }
    } else if |prefix| > 0 {
      var suffix := Take(RemoveVowels(prefix[1..]), 2);
      RemoveVowelsIn(prefix[1..]);
      if |suffix| <= 1 {
        LowerLetters(prefix, Take(prefix, 3));
      } else {
        assert forall c :: c in prefix[1..] ==> c in prefix;
        LowerLetters(prefix, [prefix[0]] + suffix);
      }
    }
  }

  /** `generateUlidPrefix`: lower case, at most three characters, every one of them a letter of
    * the name; an error exactly when the two-capital rule reads past the end. */
  function GenerateUlidPrefix(name: string): (r: Result<string, Error>)
    ensures r.Ok? ==> |r.value| <= 3 && forall i :: 0 <= i < |r.value| ==> !IsUpper(r.value[i])
    ensures r.Ok? ==> forall i :: 0 <= i < |r.value| ==> r.value[i] in ToLower(PrefixSource(name))
    ensures r.Err? <==> PrefixFrom(PrefixSource(name)).None?
    ensures r.Err? ==> r.error == UlidPrefixOffset(name)
  {
    PrefixFromShape(PrefixSource(name));
    match PrefixFrom(PrefixSource(name))
    case Some(p) => Ok(p)
    case None => Err(UlidPrefixOffset(name))
  }

  lemma {:induction false} CapitalsCons(c: char, s: string)
    ensures Capitals([c] + s) == (if IsUpper(c) then [c] else []) + Capitals(s)
  {
    assert ([c] + s)[1..] == s;
  }

  /** `Capitals` distributes over concatenation. */
  lemma {:induction false} CapitalsAppend(a: string, b: string)
    ensures Capitals(a + b) == Capitals(a) + Capitals(b)
    decreases |a|
  {
    if |a| == 0 {
      assert a + b == b;
    } else {
      var t := a[1..];
      var head: string := if IsUpper(a[0]) then [a[0]] else [];
      assert a == [a[0]] + t;
      assert a + b == [a[0]] + (t + b);
      CapitalsCons(a[0], t);
      CapitalsCons(a[0], t + b);
      CapitalsAppend(t, b);
      assert head + (Capitals(t) + Capitals(b)) == (head + Capitals(t)) + Capitals(b);
    }
  }

  lemma {:induction false} WordCapitals()
    ensures Capitals("User") == "U" && Capitals("Account") == "A" && Capitals("Setting") == "S"
  {
  }

  /** `UserAccountSetting`, spelt by its words. */
  lemma {:induction false} ThreeWordCapitals()
    ensures Capitals("User" + "Account" + "Setting") == "UAS"
  {
    WordCapitals();
    CapitalsAppend("User" + "Account", "Setting");
    CapitalsAppend("User", "Account");
  }

  lemma {:induction false} TwoWordCapitals()
    ensures Capitals("BlogPost") == "BP"
  {
  }

  lemma {:induction false} SecondInitial()
    ensures FirstIndexOf("BlogPost", 'P') == 4
  {
  }

  lemma {:induction false} OrderCapitals()
    ensures Capitals("Order") == "O"
  {
  }

  lemma {:induction false} OrderConsonants()
    ensures RemoveVowels("rder") == "rdr"
  {
  }

  /** Word initials: three capitals give the first three, lower-cased. */
  lemma {:induction false} ThreeWords()
    ensures PrefixFrom("User" + "Account" + "Setting") == Some("uas")
  {
    ThreeWordCapitals();
    assert "UAS"[..3] == "UAS";
    assert ToLower("UAS") == "uas";
  }

  /** One word: its first letter and the next two consonants. */
  lemma {:induction false} OneWord()
    ensures PrefixFrom("Order") == Some("ord")
  {
    var p := "Order";
    OrderCapitals();
    OrderConsonants();
    assert p[1..] == "rder";
    assert Take("rdr", 2) == "rd";
    assert [p[0]] + "rd" == "Ord";
    assert ToLower("Ord") == "ord";
  }

  lemma {:induction false} TwoCapitalsRule(p: string, caps: string, i: nat)
    requires Capitals(p) == caps && |caps| == 2 && caps[1] in p && FirstIndexOf(p, caps[1]) == i && i + 1 < |p|
    ensures PrefixFrom(p) == Some(ToLower(caps + [p[i + 1]]))
  {
  }

  /** Two words: both initials and the letter after the second. */
  lemma {:induction false} TwoWords()
    ensures PrefixFrom("BlogPost") == Some("bpo")
  {
    var p := "BlogPost";
    TwoWordCapitals();
    SecondInitial();
    TwoCapitalsRule(p, "BP", 4);
    assert "BP" + [p[5]] == "BPo";
    assert ToLower("BPo") == "bpo";
  }

  /** Two words with nothing after the second initial: the error case. */
  lemma {:induction false} TwoCapitalsAtEnd()
    ensures PrefixFrom("AB") == None
  {
    assert Capitals("AB") == "AB";
  }

  function Elements(s: seq<string>): set<string> {
    set x | x in s
  }

  /** `unique()->count() !== count(...)`: some two models share a prefix. */
  lemma {:induction false} DistinctCount(s: seq<string>)
    ensures |Elements(s)| == |s| <==> Distinct(s)
    ensures |Elements(s)| <= |s|
    decreases |s|
  {
    if |s| > 0 {
      var t := s[..|s| - 1];
      var x := s[|s| - 1];
      DistinctCount(t);
      assert s == t + [x];
      assert Elements(s) == Elements(t) + {x};
      if x in t {
        assert Elements(s) == Elements(t);
        var k :| 0 <= k < |t| && t[k] == x;
        assert s[k] == s[|s| - 1];
      } else {
        assert x !in Elements(t);
        if Distinct(t) {
          assert Distinct(s);
        }
        if Distinct(s) {
          assert Distinct(t);
        }
      }
    }
  }

  /** `validateUlidPrefixUniqueIfNeeded` over the prefixes of every model; the check is off
    * when the configuration value `laravel-generator.ulid_prefix` is `false`. */
  function ValidateUlidPrefixUnique(checkDisabled: bool, prefixes: seq<string>): (o: Outcome<Error>)
    ensures o.Fail? <==> !checkDisabled && !Distinct(prefixes)
    ensures o.Fail? ==> o.error == UlidPrefixesNotUnique
  {
    DistinctCount(prefixes);
    if checkDisabled then Pass
    else if |Elements(prefixes)| != |prefixes| then Fail(UlidPrefixesNotUnique)
    else Pass
  }
}
