/**
 * The `.env` loader run at start-up (`load_dotenv_if_present`, app.py).
 * Each line is stripped; blank lines, comments and lines without `=` are
 * skipped; the line is split at its first `=`; the key is stripped and the
 * value stripped and then cleared of surrounding quote characters. A key
 * that is empty or already in the process environment is skipped, so
 * existing values always win and the first line for a key wins over later
 * ones. Writing a key or value holding a NUL character makes the write into
 * the process environment raise, which ends the loading at that line.
 */
module Dotenv {
  import opened Wrappers
  import opened Strings

  /** The characters `strip("'\"")` removes. */
  predicate IsQuote(c: char) { c == '\'' || c == '"' }
  const Nul: char := '\0'

  datatype Entry = Entry(key: string, value: string)

  /** Parses one line of the file; `None` when the line carries no assignment. */
  function ParseLine(line: string): (r: Option<Entry>)
    ensures var t := Strip(line, IsSpace);
      r.Some? <==> (t != [] && t[0] != '#' && '=' in t)
    ensures r.Some? ==> '=' !in r.value.key
    ensures r.Some? && |r.value.key| > 0 ==>
      !IsSpace(r.value.key[0]) && !IsSpace(r.value.key[|r.value.key| - 1])
    ensures r.Some? && |r.value.value| > 0 ==>
      !IsQuote(r.value.value[0]) && !IsQuote(r.value.value[|r.value.value| - 1])
  {
    var t := Strip(line, IsSpace);
    if t == [] || t[0] == '#' then None
    else match Find(t, '=')
      case None => None
      case Some(i) =>
        Some(Entry(Strip(t[..i], IsSpace), Strip(Strip(t[i + 1..], IsSpace), IsQuote)))
  }

  /** The key is what comes before the first `=`, the value everything after
      it, so a value may itself contain `=`. */
  lemma ParseLineSplitsAtFirstEquals(line: string)
    requires ParseLine(line).Some?
    ensures var t := Strip(line, IsSpace);
      exists i :: 0 <= i < |t| && t[i] == '=' && '=' !in t[..i]
        && ParseLine(line).value.key == Strip(t[..i], IsSpace)
        && ParseLine(line).value.value == Strip(Strip(t[i + 1..], IsSpace), IsQuote)
  {
    var t := Strip(line, IsSpace);
    var i := Find(t, '=').value;
    assert t[i] == '=' && '=' !in t[..i];
  }

  /** A key that is clean (nonempty, no `=`, no surrounding whitespace, not a
      comment) and a value that is clean (no surrounding whitespace or
      quotes) are read back unchanged from the line `key=value`. */
  lemma {:induction false} FormatParseRoundTrip(key: string, value: string)
    requires |key| > 0 && '=' !in key && key[0] != '#'
    requires !IsSpace(key[0]) && !IsSpace(key[|key| - 1])
    requires |value| > 0 ==> !IsSpace(value[0]) && !IsSpace(value[|value| - 1])
    requires |value| > 0 ==> !IsQuote(value[0]) && !IsQuote(value[|value| - 1])
    ensures ParseLine(key + "=" + value) == Some(Entry(key, value))
  {
    var line := key + "=" + value;
    assert line[0] == key[0];
    assert line[|line| - 1] == if |value| > 0 then value[|value| - 1] else '=';
    StripNoop(line, IsSpace);
    FindAfterKey(key, value);
    assert line[..|key|] == key;
    assert line[|key| + 1..] == value;
    StripNoop(key, IsSpace);
    StripNoop(value, IsSpace);
    StripNoop(value, IsQuote);
  }

  lemma FindAfterKey(key: string, value: string)
    requires '=' !in key
    ensures Find(key + "=" + value, '=') == Some(|key|)
  {
    assert (key + "=" + value)[|key|] == '=';
  }

  /** The parse of every line, in order. */
  function ParseAll(lines: seq<string>): (es: seq<Option<Entry>>)
    ensures |es| == |lines|
    ensures forall i :: 0 <= i < |lines| ==> es[i] == ParseLine(lines[i])
  {
    seq(|lines|, i requires 0 <= i < |lines| => ParseLine(lines[i]))
  }

  /** What the loader has done after some prefix of the lines: the environment,
      the keys it added in order, and whether a write has raised. */
  datatype LoadState = LoadState(env: map<string, string>, loaded: seq<string>, failed: bool)

  predicate HasNul(e: Entry) {
    Nul in e.key || Nul in e.value
  }

  /** One iteration of the loader's loop, given the parse of the line. After
      a raise nothing happens; no value already set changes; and a key is
      written only when it is nonempty, not yet set and free of NUL, in
      which case it is also listed as loaded. Such a key is always
      written, unless its entry holds a NUL, and then the write raises. */
  function StepEntry(st: LoadState, parsed: Option<Entry>): (r: LoadState)
    ensures st.failed ==> r == st
    ensures forall k :: k in st.env ==> k in r.env && r.env[k] == st.env[k]
    ensures r.loaded == st.loaded ==> r.env == st.env
    ensures r.loaded != st.loaded ==>
              parsed.Some? && parsed.value.key != "" && parsed.value.key !in st.env && !HasNul(parsed.value) &&
              r == LoadState(st.env[parsed.value.key := parsed.value.value], st.loaded + [parsed.value.key], false)
    ensures r.failed && !st.failed ==>
              parsed.Some? && parsed.value.key != "" && parsed.value.key !in st.env && HasNul(parsed.value) &&
              r.env == st.env && r.loaded == st.loaded
    ensures !st.failed && parsed.Some? && parsed.value.key != "" && parsed.value.key !in st.env ==>
              (r.failed <==> HasNul(parsed.value)) && (r.loaded != st.loaded <==> !HasNul(parsed.value))
  {
    if st.failed then st
    else match parsed
      case None => st
      case Some(e) =>
        if e.key == "" || e.key in st.env then st
        else if HasNul(e) then st.(failed := true)
        else LoadState(st.env[e.key := e.value], st.loaded + [e.key], false)
  }

  /** The loader's loop over parsed lines, starting from the environment
      `env`: at most one key is added per line, and no key is removed. */
  function LoadEntries(env: map<string, string>, es: seq<Option<Entry>>): (r: LoadState)
    ensures |r.loaded| <= |es|
    ensures env.Keys <= r.env.Keys
    decreases |es|
  {
    if |es| == 0 then LoadState(env, [], false)
    else StepEntry(LoadEntries(env, es[..|es| - 1]), es[|es| - 1])
  }

  /** The loader run over the lines of a file: at most one key per line is
      added, and every variable already set keeps its value. */
  function LoadLines(env: map<string, string>, lines: seq<string>): (r: LoadState)
    ensures |r.loaded| <= |lines|
    ensures forall k :: k in env ==> k in r.env && r.env[k] == env[k]
  {
    LoadKeepsExistingValues(env, ParseAll(lines));
    LoadEntries(env, ParseAll(lines))
  }

  lemma LoadEntriesSnoc(env: map<string, string>, es: seq<Option<Entry>>, n: nat)
    requires n < |es|
    ensures LoadEntries(env, es[..n + 1]) == StepEntry(LoadEntries(env, es[..n]), es[n])
  {
    assert es[..n + 1][..n] == es[..n];
  }

  /** Once a write has raised, nothing further happens. */
  lemma {:induction false} FailureIsFinal(env: map<string, string>, es: seq<Option<Entry>>, n: nat)
    requires n <= |es|
    requires LoadEntries(env, es[..n]).failed
    ensures LoadEntries(env, es) == LoadEntries(env, es[..n])
    decreases |es| - n
  {
    if n < |es| {
      assert es[..n + 1][..n] == es[..n];
      FailureIsFinal(env, es, n + 1);
    } else {
      assert es[..n] == es;
    }
  }

  // ---------------------------------------------------------------------
  // Reference definitions, stated on the parsed lines alone

  /** The nonempty keys of the lines that parse, in file order. */
  function AcceptedKeys(es: seq<Option<Entry>>): seq<string>
    decreases |es|
  {
    if |es| == 0 then []
    else
      var rest := AcceptedKeys(es[..|es| - 1]);
      match es[|es| - 1]
        case Some(e) => if e.key != "" then rest + [e.key] else rest
        case None => rest
  }

  /** The value of the first line that assigns `key`. */
  function FirstValue(es: seq<Option<Entry>>, key: string): Option<string>
    decreases |es|
  {
    if |es| == 0 then None
    else match FirstValue(es[..|es| - 1], key)
      case Some(v) => Some(v)
      case None =>
        match es[|es| - 1]
          case Some(e) => if e.key == key then Some(e.value) else None
          case None => None
  }

  /** The elements of `s` that are not in `ks`, in order. */
  function Without(s: seq<string>, ks: set<string>): seq<string>
    decreases |s|
  {
    if |s| == 0 then []
    else if s[|s| - 1] in ks then Without(s[..|s| - 1], ks)
    else Without(s[..|s| - 1], ks) + [s[|s| - 1]]
  }

  /** The first occurrence of each element of `s`, in order. */
  function Dedup(s: seq<string>): seq<string>
    decreases |s|
  {
    if |s| == 0 then []
    else if s[|s| - 1] in Dedup(s[..|s| - 1]) then Dedup(s[..|s| - 1])
    else Dedup(s[..|s| - 1]) + [s[|s| - 1]]
  }

  // ---------------------------------------------------------------------
  // What the loader guarantees

  /** Keys that were already set keep their values, and a key is set
      afterwards exactly when it was set before or is listed as loaded:
      nothing else in the environment changes. */
  lemma {:induction false} LoadKeepsExistingValues(env: map<string, string>, es: seq<Option<Entry>>)
    ensures var r := LoadEntries(env, es);
      forall k :: k in env ==> k in r.env && r.env[k] == env[k]
    ensures var r := LoadEntries(env, es);
      forall k :: k in r.env <==> k in env || k in r.loaded
    decreases |es|
  {
    if |es| > 0 {
      LoadKeepsExistingValues(env, es[..|es| - 1]);
    }
  }

  /** The loaded keys are never empty, were not set before, and are listed
      once each. */
  lemma {:induction false} LoadedKeysAreNew(env: map<string, string>, es: seq<Option<Entry>>)
    ensures var r := LoadEntries(env, es);
      forall i :: 0 <= i < |r.loaded| ==> r.loaded[i] !in env && r.loaded[i] != ""
    ensures Distinct(LoadEntries(env, es).loaded)
    decreases |es|
  {
    if |es| > 0 {
      var init := es[..|es| - 1];
      LoadedKeysAreNew(env, init);
      LoadKeepsExistingValues(env, init);
      var p := LoadEntries(env, init);
      var r := LoadEntries(env, es);
      assert r == StepEntry(p, es[|es| - 1]);
      if r.loaded != p.loaded {
        var e := es[|es| - 1].value;
        assert r.loaded == p.loaded + [e.key] && e.key !in p.env;
        assert e.key in p.env <==> e.key in env || e.key in p.loaded;
        assert e.key != "" && e.key !in env;
        forall i | 0 <= i < |r.loaded| ensures r.loaded[i] !in env && r.loaded[i] != "" {
          if i < |p.loaded| {
            assert r.loaded[i] == p.loaded[i];
          }
        }
        forall i, j | 0 <= i < j < |r.loaded| ensures r.loaded[i] != r.loaded[j] {
          if j == |p.loaded| {
            assert r.loaded[i] == p.loaded[i];
          }
        }
      }
    }
  }

  /** Each newly set key holds the value of the first line that assigns it. */
  lemma {:induction false} LoadedValueIsFirst(env: map<string, string>, es: seq<Option<Entry>>)
    ensures var r := LoadEntries(env, es);
      forall k :: k in r.env && k !in env ==> FirstValue(es, k) == Some(r.env[k])
    decreases |es|
  {
    if |es| > 0 {
      var init := es[..|es| - 1];
      LoadedValueIsFirst(env, init);
      var p := LoadEntries(env, init);
      var r := LoadEntries(env, es);
      assert r == StepEntry(p, es[|es| - 1]);
      forall k | k in r.env && k !in env
        ensures FirstValue(es, k) == Some(r.env[k])
      {
        if k !in p.env && FirstValue(init, k).Some? {
          FirstValueLoaded(env, init, k);
        }
      }
    }
  }

  /** A key that some line assigns, and that was not set before, is set once
      those lines are loaded without a failure. */
  lemma {:induction false} FirstValueLoaded(env: map<string, string>, es: seq<Option<Entry>>, k: string)
    requires FirstValue(es, k).Some? && k !in env && k != ""
    requires !LoadEntries(env, es).failed
    ensures k in LoadEntries(env, es).env
    decreases |es|
  {
    var init := es[..|es| - 1];
    var p := LoadEntries(env, init);
    assert !p.failed;
    if FirstValue(init, k).Some? {
      FirstValueLoaded(env, init, k);
    }
  }

  lemma {:induction false} DedupMembers(s: seq<string>, x: string)
    ensures x in Dedup(s) <==> x in s
    decreases |s|
  {
    if |s| > 0 {
      DedupMembers(s[..|s| - 1], x);
      assert s == s[..|s| - 1] + [s[|s| - 1]];
    }
  }

  /** When no write raises, the loaded keys are exactly the keys the lines
      assign that were not already set, in file order, first occurrence
      only. */
  lemma {:induction false} LoadedKeysInFileOrder(env: map<string, string>, es: seq<Option<Entry>>)
    requires !LoadEntries(env, es).failed
    ensures LoadEntries(env, es).loaded == Dedup(Without(AcceptedKeys(es), env.Keys))
    decreases |es|
  {
    if |es| > 0 {
      var init := es[..|es| - 1];
      var p := LoadEntries(env, init);
      assert LoadEntries(env, es) == StepEntry(p, es[|es| - 1]);
      assert !p.failed;
      LoadedKeysInFileOrder(env, init);
      var w := Without(AcceptedKeys(init), env.Keys);
      if es[|es| - 1].Some? && es[|es| - 1].value.key != "" {
        var key := es[|es| - 1].value.key;
        SnocLast(AcceptedKeys(init), key);
        assert AcceptedKeys(es) == AcceptedKeys(init) + [key];
        LoadKeepsExistingValues(env, init);
        if key in env {
          assert Without(AcceptedKeys(es), env.Keys) == w;
        } else {
          assert Without(AcceptedKeys(es), env.Keys) == w + [key];
          SnocLast(w, key);
          DedupMembers(w, key);
          assert key in p.env <==> key in Dedup(w);
          assert Dedup(w + [key]) == if key in Dedup(w) then Dedup(w) else Dedup(w) + [key];
        }
      }
    }
  }

  /** A key no line assigns is never loaded. */
  lemma {:induction false} UnassignedNotLoaded(env: map<string, string>, es: seq<Option<Entry>>, k: string)
    requires forall j :: 0 <= j < |es| && es[j].Some? ==> es[j].value.key != k
    ensures k !in LoadEntries(env, es).loaded
    decreases |es|
  {
    if |es| > 0 {
      UnassignedNotLoaded(env, es[..|es| - 1], k);
    }
  }

  /** The first line that assigns a new nonempty key makes the loading fail
      when its entry holds a NUL. */
  lemma NulEntryFails(env: map<string, string>, es: seq<Option<Entry>>, i: nat)
    requires i < |es| && es[i].Some?
    requires es[i].value.key != "" && es[i].value.key !in env && HasNul(es[i].value)
    requires forall j :: 0 <= j < i && es[j].Some? ==> es[j].value.key != es[i].value.key
    ensures LoadEntries(env, es).failed
  {
    var k := es[i].value.key;
    var p := LoadEntries(env, es[..i]);
    LoadEntriesSnoc(env, es, i);
    if !p.failed {
      UnassignedNotLoaded(env, es[..i], k);
      LoadKeepsExistingValues(env, es[..i]);
    }
    FailureIsFinal(env, es, i + 1);
  }

  lemma SnocLast(s: seq<string>, x: string)
    ensures (s + [x])[..|s|] == s && (s + [x])[|s|] == x
  {
  }

  /** When no write raises, every key some line assigns ends up set. */
  lemma {:induction false} AcceptedKeysAreSet(env: map<string, string>, es: seq<Option<Entry>>)
    requires !LoadEntries(env, es).failed
    ensures forall k :: k in AcceptedKeys(es) ==> k in LoadEntries(env, es).env
    decreases |es|
  {
    if |es| > 0 {
      var init := es[..|es| - 1];
      var p := LoadEntries(env, init);
      assert !p.failed;
      AcceptedKeysAreSet(env, init);
    }
  }

  /** Lines whose keys and values hold no NUL character never make a write raise. */
  lemma {:induction false} NoNulNeverFails(env: map<string, string>, es: seq<Option<Entry>>)
    requires forall i :: 0 <= i < |es| && es[i].Some? ==> !HasNul(es[i].value)
    ensures !LoadEntries(env, es).failed
    decreases |es|
  {
    if |es| > 0 {
      NoNulNeverFails(env, es[..|es| - 1]);
    }
  }

  /** A file none of whose lines holds a NUL character loads without raising. */
  lemma NoNulLinesNeverFail(env: map<string, string>, lines: seq<string>)
    requires forall i :: 0 <= i < |lines| ==> Nul !in lines[i]
    ensures !LoadLines(env, lines).failed
  {
    var es := ParseAll(lines);
    forall i | 0 <= i < |es| && es[i].Some? ensures !HasNul(es[i].value) {
      ParsedWithoutNul(lines[i]);
    }
    NoNulNeverFails(env, es);
  }

  /** A line without NUL characters parses to a key and a value without them. */
  lemma ParsedWithoutNul(line: string)
    requires ParseLine(line).Some? && Nul !in line
    ensures !HasNul(ParseLine(line).value)
  {
    var t := Strip(line, IsSpace);
    var i := Find(t, '=').value;
    assert ParseLine(line).value == Entry(Strip(t[..i], IsSpace), Strip(Strip(t[i + 1..], IsSpace), IsQuote));
    StripAvoids(line, IsSpace, Nul);
    KeyAvoids(t, i, Nul);
    ValueAvoids(t, i, Nul);
  }

  lemma KeyAvoids(t: string, i: nat, c: char)
    requires i <= |t| && c !in t
    ensures c !in Strip(t[..i], IsSpace)
  {
    SliceAvoids(t, 0, i, c);
    assert t[..i] == t[0..i];
    StripAvoids(t[..i], IsSpace, c);
  }

  lemma ValueAvoids(t: string, i: nat, c: char)
    requires i < |t| && c !in t
    ensures c !in Strip(Strip(t[i + 1..], IsSpace), IsQuote)
  {
    SliceAvoids(t, i + 1, |t|, c);
    assert t[i + 1..] == t[i + 1..|t|];
    StripAvoids(t[i + 1..], IsSpace, c);
    StripAvoids(Strip(t[i + 1..], IsSpace), IsQuote, c);
  }

  lemma SliceAvoids(s: string, i: nat, j: nat, c: char)
    requires i <= j <= |s| && c !in s
    ensures c !in s[i..j]
  {
  }

  lemma StripAvoids(s: string, drop: char -> bool, c: char)
    requires c !in s
    ensures c !in Strip(s, drop)
  {
    var j := |RStrip(s, drop)|;
    SliceAvoids(s, j - |Strip(s, drop)|, j, c);
  }

  /**
   * The process environment (`os.environ`), a map the loader updates in place.
   */
  class Environment {
    var vars: map<string, string>

    constructor (initial: map<string, string>)
      ensures vars == initial
    {
      vars := initial;
    }

    /** The loader over the lines of `.env` (a missing file has no lines).
        Returns the keys it added, in order, and whether it stopped because a
        write raised. */
    method LoadDotenv(lines: seq<string>) returns (loadedKeys: seq<string>, raised: bool)
      modifies this
      ensures vars == LoadLines(old(vars), lines).env
      ensures loadedKeys == LoadLines(old(vars), lines).loaded
      ensures raised == LoadLines(old(vars), lines).failed
    {
      ghost var env0 := vars;
      loadedKeys := [];
      raised := false;
      ghost var es := ParseAll(lines);
      for n := 0 to |lines|
        invariant LoadEntries(env0, es[..n]) == LoadState(vars, loadedKeys, false)
      {
        LoadEntriesSnoc(env0, es, n);
        var parsed := ParseLine(lines[n]);
        assert parsed == es[n];
        if parsed.None? {
          continue;
        }
        var key, value := parsed.value.key, parsed.value.value;
        if key == "" || key in vars {
          continue;
        }
        if Nul in key || Nul in value {
          raised := true;
          FailureIsFinal(env0, es, n + 1);
          return;
        }
        vars := vars[key := value];
        loadedKeys := loadedKeys + [key];
      }
      assert es[..|lines|] == es;
    }
  }
}
