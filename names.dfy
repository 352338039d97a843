/**
 * The notifier's display name: the last namespace segment of its class name
 * with every occurrence of "Notifier" removed, and the lazily filled cache
 * slot that `getName()` keeps it in.
 */
module Names {
  import opened Wrappers
  import opened Php

  /** PHP's namespace separator. */
  const Separator: char := '\\'

  /** The word `getName()` removes from the class name. */
  const Suffix: string := "Notifier"

  // ---------------------------------------------------------------------------
  // explode / join
  // ---------------------------------------------------------------------------

  /** The total length of `parts`. */
  function TotalLength(parts: seq<string>): nat
  {
    if parts == [] then 0 else |parts[0]| + TotalLength(parts[1..])
  }

  /**
   * PHP's `join($glue, $parts)`: the pieces in order, with one glue between
   * each two neighbours and none at either end.
   */
  function Join(glue: string, parts: seq<string>): (s: string)
    ensures parts == [] ==> s == []
    // the result starts with the first piece
    ensures |parts| >= 1 ==> parts[0] <= s
  {
    if |parts| == 0 then []
    else if |parts| == 1 then parts[0]
    else parts[0] + glue + Join(glue, parts[1..])
  }

  /** A join has the pieces' total length plus one glue per gap. */
  lemma {:induction false} JoinLength(glue: string, parts: seq<string>)
    requires |parts| >= 1
    ensures |Join(glue, parts)| == TotalLength(parts) + |glue| * (|parts| - 1)
    decreases |parts|
  {
    if |parts| >= 2 {
      JoinLength(glue, parts[1..]);
      assert |glue| * (|parts| - 1) == |glue| * (|parts| - 2) + |glue|;
    }
  }

  /** A join ends with the last piece, after the join of the others and one glue. */
  lemma {:induction false} JoinSnoc(glue: string, parts: seq<string>)
    requires |parts| >= 2
    ensures Join(glue, parts) == Join(glue, parts[..|parts| - 1]) + glue + parts[|parts| - 1]
    decreases |parts|
  {
    var init := parts[..|parts| - 1];
    assert init[0] == parts[0];
    if |parts| > 2 {
      JoinSnoc(glue, parts[1..]);
      assert parts[1..][..|parts| - 2] == init[1..];
      assert parts[1..][|parts| - 2] == parts[|parts| - 1];
    }
  }

  /**
   * PHP's `explode($sep, $s)` for a one-character separator: the pieces of `s`
   * between separators, at least one (`explode` of "" is [""]). Its partner is
   * `Join([sep], ·)`: gluing the pieces back gives `s` (below), and exploding
   * glued separator-free pieces gives the pieces back (ExplodeJoin).
   */
  function Explode(sep: char, s: string): (parts: seq<string>)
    ensures |parts| >= 1
    ensures forall i :: 0 <= i < |parts| ==> sep !in parts[i]
    ensures Join([sep], parts) == s
    decreases |s|
  {
    if s == [] then [[]]
    else
      var rest := Explode(sep, s[1..]);
      if s[0] == sep then
        assert ([[]] + rest)[1..] == rest;
        [[]] + rest
      else
        var parts := [[s[0]] + rest[0]] + rest[1..];
        assert parts[1..] == rest[1..];
        assert s == [s[0]] + s[1..];
        parts
  }

  /** A string without separators explodes to itself alone. */
  lemma {:induction false} ExplodeSingle(sep: char, s: string)
    requires sep !in s
    ensures Explode(sep, s) == [s]
    decreases |s|
  {
    if s != [] {
      ExplodeSingle(sep, s[1..]);
      assert s == [s[0]] + s[1..];
    }
  }

  /** Exploding across one separator concatenates the two explosions. */
  lemma {:induction false} ExplodeAppend(sep: char, a: string, b: string)
    ensures Explode(sep, a + [sep] + b) == Explode(sep, a) + Explode(sep, b)
    decreases |a|
  {
    if a == [] {
      assert ([] + [sep] + b)[1..] == b;
    } else {
      var c, t, more := a[0], a[1..], Explode(sep, b);
      calc {
        Explode(sep, a + [sep] + b);
        { assert a + [sep] + b == [c] + (t + [sep] + b); ExplodeUnfold(sep, c, t + [sep] + b); }
        Prepend(sep, c, Explode(sep, t + [sep] + b));
        { ExplodeAppend(sep, t, b); }
        Prepend(sep, c, Explode(sep, t) + more);
        { PrependAppend(sep, c, Explode(sep, t), more); }
        Prepend(sep, c, Explode(sep, t)) + more;
        { assert a == [c] + t; ExplodeUnfold(sep, c, t); }
        Explode(sep, a) + more;
      }
    }
  }

  /** How one more leading character changes a list of pieces. */
  function Prepend(sep: char, c: char, rest: seq<string>): (parts: seq<string>)
    requires |rest| >= 1
  {
    if c == sep then [[]] + rest else [[c] + rest[0]] + rest[1..]
  }

  /** One step of `explode`: the first character either ends a piece or starts the first one. */
  lemma ExplodeUnfold(sep: char, c: char, t: string)
    ensures Explode(sep, [c] + t) == Prepend(sep, c, Explode(sep, t))
  {
    assert ([c] + t)[1..] == t;
  }

  /** Prepending a character commutes with appending further pieces. */
  lemma PrependAppend(sep: char, c: char, rest: seq<string>, more: seq<string>)
    requires |rest| >= 1
    ensures Prepend(sep, c, rest + more) == Prepend(sep, c, rest) + more
  {
    assert (rest + more)[1..] == rest[1..] + more;
  }

  /** Round trip the other way: exploding glued separator-free pieces returns them. */
  lemma {:induction false} ExplodeJoin(sep: char, parts: seq<string>)
    requires |parts| >= 1
    requires forall i :: 0 <= i < |parts| ==> sep !in parts[i]
    ensures Explode(sep, Join([sep], parts)) == parts
    decreases |parts|
  {
    if |parts| == 1 {
      ExplodeSingle(sep, parts[0]);
    } else {
      ExplodeJoin(sep, parts[1..]);
      ExplodeSingle(sep, parts[0]);
      ExplodeAppend(sep, parts[0], Join([sep], parts[1..]));
      assert parts == [parts[0]] + parts[1..];
    }
  }

  /** The last namespace segment of a class name: `join('', array_slice(explode('\\', $cls), -1))`. */
  function LastSegment(cls: string): (seg: string)
    ensures Separator !in seg
  {
    var parts := Explode(Separator, cls);
    Join("", parts[|parts| - 1..])
  }

  /** The last segment is what follows the last separator, or the whole name if there is none. */
  lemma LastSegmentAfterSeparator(ns: string, seg: string)
    requires Separator !in seg
    ensures LastSegment(ns + [Separator] + seg) == seg
    ensures LastSegment(seg) == seg
  {
    ExplodeAppend(Separator, ns, seg);
    ExplodeSingle(Separator, seg);
  }

  // ---------------------------------------------------------------------------
  // str_replace($pat, '', $s)
  // ---------------------------------------------------------------------------

  /**
   * PHP's `str_replace($pat, '', $s)`: scan left to right and drop every
   * non-overlapping occurrence of `pat`; the result is not rescanned.
   */
  function RemoveAll(pat: string, s: string): (r: string)
    requires pat != []
    ensures |r| <= |s|
    decreases |s|
  {
    if s == [] then []
    else if |pat| <= |s| && s[..|pat|] == pat then RemoveAll(pat, s[|pat|..])
    else [s[0]] + RemoveAll(pat, s[1..])
  }

  /** Removal only drops characters: the result uses characters of `s`, counted with multiplicity. */
  lemma {:induction false} RemoveAllChars(pat: string, s: string)
    requires pat != []
    ensures multiset(RemoveAll(pat, s)) <= multiset(s)
    decreases |s|
  {
    if s == [] {
    } else if |pat| <= |s| && s[..|pat|] == pat {
      assert s == s[..|pat|] + s[|pat|..];
      RemoveAllChars(pat, s[|pat|..]);
    } else {
      assert s == [s[0]] + s[1..];
      RemoveAllChars(pat, s[1..]);
    }
  }

  /** `pat` occurs in `s` starting at index `i`. */
  predicate OccursAt(pat: string, s: string, i: int)
  {
    0 <= i && i + |pat| <= |s| && s[i..i + |pat|] == pat
  }

  /** `pat` occurs somewhere in `s`. */
  predicate Occurs(pat: string, s: string)
  {
    exists i :: 0 <= i <= |s| && OccursAt(pat, s, i)
  }

  /** Removal shortens every string in which the pattern occurs. */
  lemma {:induction false} RemoveAllShortens(pat: string, s: string)
    requires pat != [] && Occurs(pat, s)
    ensures |RemoveAll(pat, s)| < |s|
    decreases |s|
  {
    var i :| 0 <= i <= |s| && OccursAt(pat, s, i);
    assert 0 <= i && i + |pat| <= |s|;
    if !(|pat| <= |s| && s[..|pat|] == pat) {
      assert i != 0;
      assert s[1..][i - 1..i - 1 + |pat|] == s[i..i + |pat|];
      assert OccursAt(pat, s[1..], i - 1);
      RemoveAllShortens(pat, s[1..]);
    }
  }

  /** Removal leaves a string unchanged exactly when the pattern does not occur in it. */
  lemma {:induction false} RemoveAllFixpoint(pat: string, s: string)
    requires pat != []
    ensures RemoveAll(pat, s) == s <==> !Occurs(pat, s)
    decreases |s|
  {
    if Occurs(pat, s) {
      RemoveAllShortens(pat, s);
    } else if s != [] {
      assert !OccursAt(pat, s, 0);
      forall i | OccursAt(pat, s[1..], i) ensures false {
        assert s[i + 1..i + 1 + |pat|] == s[1..][i..i + |pat|];
        assert OccursAt(pat, s, i + 1);
      }
      RemoveAllFixpoint(pat, s[1..]);
      assert s == [s[0]] + s[1..];
    }
  }

  /** A proper prefix of `pat` of length `k` is also its suffix. */
  predicate IsBorder(pat: string, k: int)
  {
    0 < k < |pat| && pat[..k] == pat[|pat| - k..]
  }

  /** No two occurrences of `pat` can overlap. */
  predicate BorderFree(pat: string)
  {
    forall k :: 0 < k < |pat| ==> !IsBorder(pat, k)
  }

  /** "Notifier" has no border: its first letter appears nowhere else in it. */
  lemma SuffixBorderFree()
    ensures BorderFree(Suffix)
  {
    forall k | 0 < k < |Suffix| ensures !IsBorder(Suffix, k) {
      assert Suffix[..k][0] == 'N';
      assert Suffix[|Suffix| - k..][0] == Suffix[|Suffix| - k];
    }
  }

  /** A match that starts inside `a` and reaches into the following `pat` is a border of `pat`. */
  lemma OverlapIsBorder(pat: string, a: string, b: string)
    requires 0 < |a| < |pat|
    requires (a + pat + b)[..|pat|] == pat
    ensures IsBorder(pat, |pat| - |a|)
  {
    var s := a + pat + b;
    var k := |pat| - |a|;
    forall j | 0 <= j < k ensures pat[..k][j] == pat[|pat| - k..][j] {
      assert s[|a| + j] == pat[j];
      assert s[..|pat|][|a| + j] == pat[|a| + j];
    }
  }

  /**
   * For a pattern without borders, removal splits at every occurrence: the
   * result is the removal from the part before it followed by the removal from
   * the part after it.
   */
  lemma {:induction false} RemoveAllSplit(pat: string, a: string, b: string)
    requires pat != [] && BorderFree(pat)
    ensures RemoveAll(pat, a + pat + b) == RemoveAll(pat, a) + RemoveAll(pat, b)
    decreases |a|
  {
    if a == [] {
      SplitAtStart(pat, b);
    } else if (a + pat + b)[..|pat|] == pat {
      if |a| < |pat| {
        OverlapIsBorder(pat, a, b);
        assert false;
      }
      SplitAtMatch(pat, a, b);
    } else {
      SplitPastChar(pat, a, b);
    }
  }

  /** RemoveAllSplit when `a` is empty: a leading occurrence is dropped. */
  lemma SplitAtStart(pat: string, b: string)
    requires pat != []
    ensures RemoveAll(pat, [] + pat + b) == RemoveAll(pat, []) + RemoveAll(pat, b)
  {
    var s := [] + pat + b;
    assert s[..|pat|] == pat && s[|pat|..] == b;
  }

  /** RemoveAllSplit when `a` itself starts with `pat`. */
  lemma {:induction false} SplitAtMatch(pat: string, a: string, b: string)
    requires pat != [] && BorderFree(pat)
    requires |pat| <= |a| && a[..|pat|] == pat
    ensures RemoveAll(pat, a + pat + b) == RemoveAll(pat, a) + RemoveAll(pat, b)
    decreases |a|, 0
  {
    var s := a + pat + b;
    assert s[..|pat|] == a[..|pat|];
    assert s[|pat|..] == a[|pat|..] + pat + b;
    assert RemoveAll(pat, s) == RemoveAll(pat, s[|pat|..]);
    assert RemoveAll(pat, a) == RemoveAll(pat, a[|pat|..]);
    RemoveAllSplit(pat, a[|pat|..], b);
  }

  /** RemoveAllSplit when no match starts at the first character of `a`. */
  lemma {:induction false} SplitPastChar(pat: string, a: string, b: string)
    requires pat != [] && BorderFree(pat)
    requires a != [] && (a + pat + b)[..|pat|] != pat
    ensures RemoveAll(pat, a + pat + b) == RemoveAll(pat, a) + RemoveAll(pat, b)
    decreases |a|, 0
  {
    var s, t := a + pat + b, a[1..];
    calc {
      RemoveAll(pat, s);
      { assert s[0] == a[0] && s[1..] == t + pat + b; KeepFirst(pat, s); }
      [a[0]] + RemoveAll(pat, t + pat + b);
      { RemoveAllSplit(pat, t, b); }
      [a[0]] + (RemoveAll(pat, t) + RemoveAll(pat, b));
      { assert |pat| <= |a| ==> a[..|pat|] == s[..|pat|]; KeepFirst(pat, a); }
      RemoveAll(pat, a) + RemoveAll(pat, b);
    }
  }

  /** Without a match at its start, removal keeps the first character and goes on with the rest. */
  lemma KeepFirst(pat: string, s: string)
    requires pat != [] && s != []
    requires !(|pat| <= |s| && s[..|pat|] == pat)
    ensures RemoveAll(pat, s) == [s[0]] + RemoveAll(pat, s[1..])
  {
  }

  // ---------------------------------------------------------------------------
  // getName()
  // ---------------------------------------------------------------------------

  /** The name `getName()` computes for class `cls` when its cache is empty. */
  function DeriveName(cls: string): (name: string)
    ensures Separator !in name
  {
    var seg := LastSegment(cls);
    var name := RemoveAll(Suffix, seg);
    RemoveAllChars(Suffix, seg);
    assert Separator in name ==> multiset(name)[Separator] > 0;
    name
  }

  /**
   * A class `...\StemNotifier` is named `Stem`, when the stem itself contains
   * no separator and no "Notifier".
   */
  lemma DeriveNameStripsSuffix(ns: string, stem: string)
    requires Separator !in stem && !Occurs(Suffix, stem)
    ensures DeriveName(ns + [Separator] + stem + Suffix) == stem
    ensures DeriveName(stem + Suffix) == stem
  {
    assert Separator !in Suffix;
    assert ns + [Separator] + stem + Suffix == ns + [Separator] + (stem + Suffix);
    LastSegmentAfterSeparator(ns, stem + Suffix);
    RemoveTrailingSuffix(stem);
  }

  /** `str_replace` takes a trailing "Notifier" off a stem that does not contain the word. */
  lemma RemoveTrailingSuffix(stem: string)
    requires !Occurs(Suffix, stem)
    ensures RemoveAll(Suffix, stem + Suffix) == stem
  {
    SuffixBorderFree();
    RemoveAllSplit(Suffix, stem, []);
    assert stem + Suffix == stem + Suffix + [];
    RemoveAllFixpoint(Suffix, stem);
  }

  /** A last segment without "Notifier" is the name unchanged: absence of the word is no error. */
  lemma DeriveNameWithoutSuffix(ns: string, seg: string)
    requires Separator !in seg && !Occurs(Suffix, seg)
    ensures DeriveName(ns + [Separator] + seg) == seg
    ensures DeriveName(seg) == seg
  {
    LastSegmentAfterSeparator(ns, seg);
    RemoveAllFixpoint(Suffix, seg);
  }

  /** `App\Notifier\WelcomeNotifier` is named `Welcome`. */
  lemma DeriveNameWelcome()
    ensures DeriveName("App\\Notifier\\WelcomeNotifier") == "Welcome"
  {
    assert "App\\Notifier\\WelcomeNotifier" == "App\\Notifier" + [Separator] + "Welcome" + Suffix;
    DeriveNameStripsSuffix("App\\Notifier", "Welcome");
  }

  /**
   * Every occurrence is removed, not only a trailing one: `...\NotifierFooNotifier`
   * is named `Foo`.
   */
  lemma DeriveNameRemovesEveryOccurrence(ns: string, stem: string)
    requires Separator !in stem && !Occurs(Suffix, stem)
    ensures DeriveName(ns + [Separator] + Suffix + stem + Suffix) == stem
  {
    var tail := stem + Suffix + [];
    var seg := [] + Suffix + tail;
    assert Separator !in Suffix;
    assert ns + [Separator] + Suffix + stem + Suffix == ns + [Separator] + seg;
    LastSegmentAfterSeparator(ns, seg);
    SuffixBorderFree();
    RemoveAllSplit(Suffix, [], tail);
    RemoveAllSplit(Suffix, stem, []);
    RemoveAllFixpoint(Suffix, stem);
  }

  /** What one `getName()` call returns, and the cache slot it leaves behind. */
  datatype Lookup = Lookup(name: string, slot: Option<string>)

  /**
   * `getName()` against the cache slot `static::$name`: a truthy slot is
   * returned as it is; otherwise the name of `cls` is derived and stored.
   */
  function ResolveName(slot: Option<string>, cls: string): (r: Lookup)
    ensures r.slot == Some(r.name)
    ensures Truthy(slot) ==> r.slot == slot
    ensures !Truthy(slot) ==> r.name == DeriveName(cls)
  {
    if Truthy(slot) then Lookup(slot.value, slot)
    else
      var name := DeriveName(cls);
      Lookup(name, Some(name))
  }

  /** Two consecutive calls for the same class return the same string and leave the same slot. */
  lemma ResolveNameStable(slot: Option<string>, cls: string)
    ensures var first := ResolveName(slot, cls);
            ResolveName(first.slot, cls) == first
  {
  }

  /**
   * The slot is shared by every class that does not redeclare it: once it holds
   * a truthy name, a call for any other class returns that name.
   */
  lemma ResolveNameShared(slot: Option<string>, cls: string, other: string)
    requires Truthy(ResolveName(slot, cls).slot)
    ensures ResolveName(ResolveName(slot, cls).slot, other).name == ResolveName(slot, cls).name
  {
  }

  /** A derived name that is falsy ("" or "0") is stored but never served from the cache. */
  lemma FalsyNameNotCached(slot: Option<string>, cls: string, other: string)
    requires !Truthy(slot) && !Truthy(Some(DeriveName(cls)))
    ensures ResolveName(ResolveName(slot, cls).slot, other).name == DeriveName(other)
  {
  }

  /** A class named exactly `Notifier` derives the falsy name "". */
  lemma DeriveNameOfBareNotifier()
    ensures DeriveName("App\\Notifier") == ""
    ensures !Truthy(Some(DeriveName("App\\Notifier")))
  {
    assert "App\\Notifier" == "App" + [Separator] + "" + Suffix;
    DeriveNameStripsSuffix("App", "");
  }

  /** Once `WelcomeNotifier` has filled the slot, `ResetNotifier` is also named `Welcome`. */
  lemma SharedSlotExample()
    ensures ResolveName(ResolveName(None, "App\\Notifier\\WelcomeNotifier").slot,
                        "App\\Notifier\\ResetNotifier").name == "Welcome"
  {
    DeriveNameWelcome();
  }
}
