// The build script that merges the translation files of the front end
// (workspace/scripts/i18next-scanner.js): the lossless deep merge of JSON objects, the
// grouping of language files by language code, and the way each scanned namespace is
// combined with the existing file and written with the chosen line ending.
module I18nScanner {
  import opened Results
  import opened Records
  import opened JsStrings
  import opened JsArrays
  import opened JsonValues

  // ---------------------------------------------------------------------------------
  // deepMerge
  // ---------------------------------------------------------------------------------

  /** Why a merge throws: a shared key whose values are not both objects, or one is null. */
  datatype MergeError = NotBothObjects(key: string) | NullValue(key: string)

  /** The keys `deepMerge` visits: the target's, then the source's that the target lacks. */
  function UnionKeys(source: Record<Json>, target: Record<Json>): seq<string>
  {
    Dedup(Keys(target) + Keys(source))
  }

  /** The new target of `deepMerge(source, target)`. */
  function Merged(source: Record<Json>, target: Record<Json>): Result<Record<Json>, MergeError>
    decreases RecordSize(source) + RecordSize(target), 1
  {
    MergeKeys(UnionKeys(source, target), source, target)
  }

  /** The target after the loop of `deepMerge` has visited the keys `ks`. */
  function MergeKeys(ks: seq<string>, source: Record<Json>, target: Record<Json>): Result<Record<Json>, MergeError>
    decreases RecordSize(source) + RecordSize(target), 0, |ks|
  {
    if ks == [] then Ok(target)
    else
      match MergeKeys(ks[..|ks| - 1], source, target)
      case Err(e) => Err(e)
      case Ok(current) => MergeKey(ks[|ks| - 1], source, target, current)
  }

  /**
   * One pass of the loop: a shared key is merged recursively with the roles of source and
   * target swapped, and the result is assigned into the target's object; a key only the
   * source has is copied; any other key is left alone.
   */
  function MergeKey(k: string, source: Record<Json>, target: Record<Json>, current: Record<Json>)
    : Result<Record<Json>, MergeError>
    decreases RecordSize(source) + RecordSize(target), 0, 0
  {
    var sv := Get(source, k);
    var tv := Get(target, k);
    if sv.Some? && tv.Some? then
      if !sv.value.IsObjectType() || !tv.value.IsObjectType() then Err(NotBothObjects(k))
      else if sv.value.JNull? || tv.value.JNull? then Err(NullValue(k))
      else
        GetSize(source, k);
        GetSize(target, k);
        match Merged(tv.value.fields, sv.value.fields)
        case Err(e) => Err(e)
        case Ok(m) => Ok(Put(current, k, JObject(PutAll(PutAll(tv.value.fields, m), m))))
    else if sv.Some? then Ok(Put(current, k, sv.value))
    else Ok(current)
  }

  /** Whether the loop gets past key `k`: unless both sides have it, it always does. */
  predicate Mergeable(k: string, source: Record<Json>, target: Record<Json>)
  {
    HasKey(source, k) && HasKey(target, k) ==>
      && Get(source, k).value.JObject?
      && Get(target, k).value.JObject?
      && Merged(Get(target, k).value.fields, Get(source, k).value.fields).Ok?
  }

  /** What a successful merge leaves under key `k`. */
  predicate MergedAt(r: Record<Json>, source: Record<Json>, target: Record<Json>, k: string)
  {
    && (HasKey(r, k) <==> HasKey(source, k) || HasKey(target, k))
    && (!HasKey(source, k) ==> Get(r, k) == Get(target, k))
    && (HasKey(source, k) && !HasKey(target, k) ==> Get(r, k) == Get(source, k))
    && (HasKey(source, k) && HasKey(target, k) ==>
          && Get(source, k).value.JObject?
          && Get(target, k).value.JObject?
          && var tf := Get(target, k).value.fields;
             var m := Merged(tf, Get(source, k).value.fields);
             m.Ok? && Get(r, k) == Some(JObject(PutAll(PutAll(tf, m.value), m.value))))
  }

  lemma {:induction false} MergeKeysSpec(ks: seq<string>, source: Record<Json>, target: Record<Json>)
    ensures MergeKeys(ks, source, target).Ok? <==> forall k :: k in ks ==> Mergeable(k, source, target)
    ensures MergeKeys(ks, source, target).Ok? ==>
      var r := MergeKeys(ks, source, target).value;
      && (forall k :: k in ks ==> MergedAt(r, source, target, k))
      && (forall k :: k !in ks ==> Get(r, k) == Get(target, k))
    decreases |ks|
  {
    if ks != [] {
      var init := ks[..|ks| - 1];
      var k := ks[|ks| - 1];
      MergeKeysSpec(init, source, target);
      assert forall x :: x in ks <==> x in init || x == k;
      var prev := MergeKeys(init, source, target);
      if prev.Ok? {
        var current := prev.value;
        var step := MergeKey(k, source, target, current);
        assert step.Ok? <==> Mergeable(k, source, target);
        if step.Ok? {
          var r := step.value;
          var sv := Get(source, k);
          assert Get(current, k) == Get(target, k) || k in init;
          forall x | x != k || sv.None? ensures Get(r, x) == Get(current, x) {
            var tv := Get(target, k);
            if sv.Some? && tv.Some? {
              var m := Merged(tv.value.fields, sv.value.fields).value;
              GetPut(current, k, JObject(PutAll(PutAll(tv.value.fields, m), m)), x);
            } else if sv.Some? {
              GetPut(current, k, sv.value, x);
            }
          }
          if sv.Some? {
            var tv := Get(target, k);
            if tv.Some? {
              var m := Merged(tv.value.fields, sv.value.fields).value;
              GetPut(current, k, JObject(PutAll(PutAll(tv.value.fields, m), m)), k);
            } else {
              GetPut(current, k, sv.value, k);
            }
          }
          assert MergedAt(r, source, target, k);
        }
      }
    }
  }

  /**
   * `deepMerge` succeeds exactly when every key both objects have holds an object on both
   * sides that merge in turn. Then the new target has every key of either side: a key of
   * one side only keeps that side's value, and a shared key holds the recursive merge of
   * the two objects.
   */
  lemma MergedSpec(source: Record<Json>, target: Record<Json>)
    ensures Merged(source, target).Ok? <==> forall k :: Mergeable(k, source, target)
    ensures Merged(source, target).Ok? ==> forall k :: MergedAt(Merged(source, target).value, source, target, k)
  {
    var ks := UnionKeys(source, target);
    MergeKeysSpec(ks, source, target);
    DedupSpec(Keys(target) + Keys(source));
    forall k ensures k in ks <==> HasKey(source, k) || HasKey(target, k) {
      InKeys(source, k);
      InKeys(target, k);
    }
    if Merged(source, target).Ok? {
      var r := Merged(source, target).value;
      forall k | k !in ks ensures MergedAt(r, source, target, k) {
        assert Get(r, k) == Get(target, k);
      }
    }
  }

  /** A merge that fails after the first `j` keys fails the same way after all of them. */
  lemma {:induction false} MergeKeysKeepsError(ks: seq<string>, j: nat, source: Record<Json>, target: Record<Json>)
    requires j <= |ks|
    requires MergeKeys(ks[..j], source, target).Err?
    ensures MergeKeys(ks, source, target) == MergeKeys(ks[..j], source, target)
    decreases |ks| - j
  {
    if j < |ks| {
      assert ks[..j + 1][..j] == ks[..j];
      MergeKeysKeepsError(ks, j + 1, source, target);
    } else {
      assert ks[..j] == ks;
    }
  }

  /**
   * `deepMerge(source, target)`: merges the source into the target and returns the new
   * source and the new target. The source ends up with the target's values assigned over
   * it. Keys held by both sides must hold objects on both sides, or the merge throws.
   */
  method DeepMerge(source: Record<Json>, target: Record<Json>)
    returns (r: Result<(Record<Json>, Record<Json>), MergeError>)
    ensures Merged(source, target).Err? ==> r == Err(Merged(source, target).error)
    ensures Merged(source, target).Ok? ==>
      r == Ok((PutAll(source, Merged(source, target).value), Merged(source, target).value))
    decreases RecordSize(source) + RecordSize(target)
  {
    var keys := Dedup(Keys(target) + Keys(source));
    DedupSpec(Keys(target) + Keys(source));
    var t := target;
    var i := 0;
    while i < |keys|
      invariant 0 <= i <= |keys|
      invariant MergeKeys(keys[..i], source, target) == Ok(t)
    {
      var key := keys[i];
      assert keys[..i + 1][..i] == keys[..i];
      assert key !in keys[..i];
      MergeKeysSpec(keys[..i], source, target);
      var sv := Get(source, key);
      var tv := Get(t, key);
      if sv.Some? && tv.Some? {
        if !sv.value.IsObjectType() || !tv.value.IsObjectType() {
          MergeKeysKeepsError(keys, i + 1, source, target);
          return Err(NotBothObjects(key));
        }
        if sv.value.JNull? || tv.value.JNull? {
          MergeKeysKeepsError(keys, i + 1, source, target);
          return Err(NullValue(key));
        }
        GetSize(source, key);
        GetSize(target, key);
        var sub := DeepMerge(tv.value.fields, sv.value.fields);
        if sub.Err? {
          MergeKeysKeepsError(keys, i + 1, source, target);
          return Err(sub.error);
        }
        t := Put(t, key, JObject(PutAll(sub.value.0, sub.value.1)));
      } else if sv.Some? {
        t := Put(t, key, sv.value);
      }
      i := i + 1;
    }
    assert keys[..i] == keys;
    r := Ok((PutAll(source, t), t));
  }

  // ---------------------------------------------------------------------------------
  // createTempLanguageFiles
  // ---------------------------------------------------------------------------------

  /** Whether `/([a-z]{2,2})\.json/` matches at position `p`. */
  predicate LanguageCodeAt(name: string, p: int)
  {
    0 <= p && p + 7 <= |name| && IsLowerAscii(name[p]) && IsLowerAscii(name[p + 1])
    && name[p + 2..p + 7] == ".json"
  }

  function FirstLanguageCodeFrom(name: string, p: nat): (r: Option<nat>)
    requires p <= |name|
    ensures r.Some? ==> p <= r.value && LanguageCodeAt(name, r.value)
                        && forall q :: p <= q < r.value ==> !LanguageCodeAt(name, q)
    ensures r.None? ==> forall q :: p <= q ==> !LanguageCodeAt(name, q)
    decreases |name| - p
  {
    if p + 7 > |name| then None
    else if LanguageCodeAt(name, p) then Some(p)
    else FirstLanguageCodeFrom(name, p + 1)
  }

  /** The captured group of `/([a-z]{2,2})\.json/.exec(name)`: the leftmost match's code. */
  function ExtractLanguage(name: string): Option<string>
  {
    match FirstLanguageCodeFrom(name, 0)
    case None => None
    case Some(p) => Some(name[p..p + 2])
  }

  /**
   * A file name has a language code exactly when the pattern matches somewhere, and the
   * code is the two letters of the leftmost match.
   */
  lemma ExtractLanguageSpec(name: string)
    ensures ExtractLanguage(name).None? <==> forall q :: !LanguageCodeAt(name, q)
    ensures ExtractLanguage(name).Some? ==>
      exists p :: LanguageCodeAt(name, p) && ExtractLanguage(name).value == name[p..p + 2]
                  && forall q :: 0 <= q < p ==> !LanguageCodeAt(name, q)
  {
    var r := FirstLanguageCodeFrom(name, 0);
    if r.Some? {
      assert LanguageCodeAt(name, r.value);
    }
  }

  /** What stops the script: a file name without a language code, or a failed merge. */
  datatype ScanError = NoLanguageCode(file: string) | MergeFailed(error: MergeError)

  /** The map from language code to its files after the grouping loop has seen `files`. */
  function GroupedByLanguage(files: seq<string>): Result<Record<seq<string>>, ScanError>
    decreases |files|
  {
    if files == [] then Ok([])
    else
      var file := files[|files| - 1];
      match GroupedByLanguage(files[..|files| - 1])
      case Err(e) => Err(e)
      case Ok(groups) =>
        match ExtractLanguage(file)
        case None => Err(NoLanguageCode(file))
        case Some(lang) => Ok(Put(groups, lang, Get(groups, lang).GetOr([]) + [file]))
  }

  predicate AllHaveLanguage(files: seq<string>)
  {
    forall i :: 0 <= i < |files| ==> ExtractLanguage(files[i]).Some?
  }

  function LanguagesOf(files: seq<string>): (langs: seq<string>)
    requires AllHaveLanguage(files)
    ensures |langs| == |files|
  {
    seq(|files|, i requires 0 <= i < |files| => ExtractLanguage(files[i]).value)
  }

  /** The files whose language code is `lang`, in their order. */
  function FilesOfLanguage(files: seq<string>, lang: string): seq<string>
    decreases |files|
  {
    if files == [] then []
    else FilesOfLanguage(files[..|files| - 1], lang)
         + (if ExtractLanguage(files[|files| - 1]) == Some(lang) then [files[|files| - 1]] else [])
  }

  /**
   * Grouping succeeds exactly when every file name has a language code, and otherwise
   * names the first file without one.
   */
  lemma {:induction false} GroupedByLanguageOutcome(files: seq<string>)
    ensures GroupedByLanguage(files).Ok? <==> AllHaveLanguage(files)
    ensures GroupedByLanguage(files).Err? ==>
      exists i :: 0 <= i < |files| && ExtractLanguage(files[i]).None?
                  && (forall j :: 0 <= j < i ==> ExtractLanguage(files[j]).Some?)
                  && GroupedByLanguage(files).error == NoLanguageCode(files[i])
    decreases |files|
  {
    if files != [] {
      var init := files[..|files| - 1];
      var file := files[|files| - 1];
      GroupedByLanguageOutcome(init);
      assert forall j :: 0 <= j < |init| ==> init[j] == files[j];
      assert AllHaveLanguage(files) <==> AllHaveLanguage(init) && ExtractLanguage(file).Some? by {
        if AllHaveLanguage(init) && ExtractLanguage(file).Some? {
          forall i | 0 <= i < |files| ensures ExtractLanguage(files[i]).Some? {
            if i < |init| { assert files[i] == init[i]; }
          }
        }
      }
      var prev := GroupedByLanguage(init);
      if prev.Err? {
        var i :| 0 <= i < |init| && ExtractLanguage(init[i]).None?
                 && (forall j :: 0 <= j < i ==> ExtractLanguage(init[j]).Some?)
                 && prev.error == NoLanguageCode(init[i]);
        assert files[i] == init[i];
      } else if ExtractLanguage(file).None? {
        assert files[|files| - 1] == file;
      }
    }
  }

  lemma LanguagesOfSnoc(files: seq<string>)
    requires files != [] && AllHaveLanguage(files)
    ensures AllHaveLanguage(files[..|files| - 1])
    ensures LanguagesOf(files) == LanguagesOf(files[..|files| - 1]) + [ExtractLanguage(files[|files| - 1]).value]
  {
    var init := files[..|files| - 1];
    assert forall j :: 0 <= j < |init| ==> init[j] == files[j];
    var l := LanguagesOf(init) + [ExtractLanguage(files[|files| - 1]).value];
    forall j | 0 <= j < |files| ensures LanguagesOf(files)[j] == l[j] {
      if j < |init| {
        assert files[j] == init[j];
      }
    }
  }

  /** Adding a file with a language code appends it to its language's group. */
  lemma GroupedByLanguageStep(files: seq<string>)
    requires files != [] && GroupedByLanguage(files[..|files| - 1]).Ok?
    requires ExtractLanguage(files[|files| - 1]).Some?
    ensures var groups := GroupedByLanguage(files[..|files| - 1]).value;
      var lang := ExtractLanguage(files[|files| - 1]).value;
      GroupedByLanguage(files) == Ok(Put(groups, lang, Get(groups, lang).GetOr([]) + [files[|files| - 1]]))
  {
  }

  /** The languages come in the order they are first seen. */
  lemma {:induction false} GroupedByLanguageKeys(files: seq<string>)
    requires AllHaveLanguage(files)
    ensures GroupedByLanguage(files).Ok?
    ensures Keys(GroupedByLanguage(files).value) == Dedup(LanguagesOf(files))
    decreases |files|
  {
    GroupedByLanguageOutcome(files);
    if files != [] {
      var init := files[..|files| - 1];
      var file := files[|files| - 1];
      assert AllHaveLanguage(init) by {
        forall j | 0 <= j < |init| ensures ExtractLanguage(init[j]).Some? {
          assert init[j] == files[j];
        }
      }
      GroupedByLanguageKeys(init);
      var groups := GroupedByLanguage(init).value;
      var lang := ExtractLanguage(file).value;
      var langs := LanguagesOf(init);
      GroupedByLanguageStep(files);
      KeysPut(groups, lang, Get(groups, lang).GetOr([]) + [file]);
      LanguagesOfSnoc(files);
      DedupSnoc(langs, lang);
      assert HasKey(groups, lang) <==> lang in langs by {
        InKeys(groups, lang);
        DedupSpec(langs);
      }
    }
  }

  /** Each language holds its files in their original order. */
  lemma {:induction false} GroupedByLanguageFiles(files: seq<string>, lang: string)
    requires AllHaveLanguage(files)
    ensures GroupedByLanguage(files).Ok?
    ensures Get(GroupedByLanguage(files).value, lang).GetOr([]) == FilesOfLanguage(files, lang)
    decreases |files|
  {
    GroupedByLanguageOutcome(files);
    if files != [] {
      var init := files[..|files| - 1];
      var file := files[|files| - 1];
      assert AllHaveLanguage(init) by {
        forall j | 0 <= j < |init| ensures ExtractLanguage(init[j]).Some? {
          assert init[j] == files[j];
        }
      }
      GroupedByLanguageFiles(init, lang);
      var groups := GroupedByLanguage(init).value;
      var l := ExtractLanguage(file).value;
      GroupedByLanguageFiles(init, l);
      GetPut(groups, l, Get(groups, l).GetOr([]) + [file], lang);
    }
  }

  /** The merged content of one language: each file's JSON merged into `{}` in turn. */
  function MergedFiles(files: seq<string>, fileJson: string -> Record<Json>): Result<Record<Json>, ScanError>
    decreases |files|
  {
    if files == [] then Ok([])
    else
      match MergedFiles(files[..|files| - 1], fileJson)
      case Err(e) => Err(e)
      case Ok(result) =>
        match Merged(fileJson(files[|files| - 1]), result)
        case Err(e) => Err(MergeFailed(e))
        case Ok(merged) => Ok(merged)
  }

  /** The merged content of a language has exactly the top-level keys of its files. */
  lemma {:induction false} MergedFilesKeys(files: seq<string>, fileJson: string -> Record<Json>)
    ensures MergedFiles(files, fileJson).Ok? ==>
      forall k :: HasKey(MergedFiles(files, fileJson).value, k) <==>
        exists i :: 0 <= i < |files| && HasKey(fileJson(files[i]), k)
    decreases |files|
  {
    if files != [] && MergedFiles(files, fileJson).Ok? {
      var init := files[..|files| - 1];
      var file := files[|files| - 1];
      MergedFilesKeys(init, fileJson);
      var result := MergedFiles(init, fileJson).value;
      MergedSpec(fileJson(file), result);
      var merged := MergedFiles(files, fileJson).value;
      forall k ensures HasKey(merged, k) <==> exists i :: 0 <= i < |files| && HasKey(fileJson(files[i]), k) {
        assert MergedAt(merged, fileJson(file), result, k);
        if HasKey(result, k) {
          var i :| 0 <= i < |init| && HasKey(fileJson(init[i]), k);
          assert files[i] == init[i];
        }
        if exists i :: 0 <= i < |files| && HasKey(fileJson(files[i]), k) {
          var i :| 0 <= i < |files| && HasKey(fileJson(files[i]), k);
          if i < |init| { assert init[i] == files[i]; }
        }
      }
    }
  }

  /** The languages and the content of their temporary files, in the order they are written. */
  function MergedLanguages(groups: Record<seq<string>>, fileJson: string -> Record<Json>)
    : Result<Record<Record<Json>>, ScanError>
    decreases |groups|
  {
    if groups == [] then Ok([])
    else
      match MergedLanguages(groups[..|groups| - 1], fileJson)
      case Err(e) => Err(e)
      case Ok(written) =>
        match MergedFiles(groups[|groups| - 1].1, fileJson)
        case Err(e) => Err(e)
        case Ok(merged) => Ok(written + [(groups[|groups| - 1].0, merged)])
  }

  /** What `createTempLanguageFiles` returns and writes: the languages and their merged content. */
  function TempLanguageFiles(files: seq<string>, fileJson: string -> Record<Json>)
    : Result<(seq<string>, Record<Record<Json>>), ScanError>
  {
    match GroupedByLanguage(files)
    case Err(e) => Err(e)
    case Ok(groups) =>
      match MergedLanguages(groups, fileJson)
      case Err(e) => Err(e)
      case Ok(written) => Ok((Keys(groups), written))
  }

  /** The temporary files are written for the returned languages, in the same order. */
  lemma {:induction false} MergedLanguagesKeys(groups: Record<seq<string>>, fileJson: string -> Record<Json>)
    ensures MergedLanguages(groups, fileJson).Ok? ==> Keys(MergedLanguages(groups, fileJson).value) == Keys(groups)
    decreases |groups|
  {
    if groups != [] && MergedLanguages(groups, fileJson).Ok? {
      var init := groups[..|groups| - 1];
      MergedLanguagesKeys(init, fileJson);
      assert Keys(groups) == Keys(init) + [groups[|groups| - 1].0];
    }
  }

  /**
   * Without an error, the script returns each language code found in the file names once,
   * in order of first appearance, and writes one file per language whose top-level keys
   * are those of that language's files.
   */
  lemma TempLanguageFilesSpec(files: seq<string>, fileJson: string -> Record<Json>)
    requires TempLanguageFiles(files, fileJson).Ok?
    ensures var (langs, written) := TempLanguageFiles(files, fileJson).value;
      && AllHaveLanguage(files)
      && langs == Dedup(LanguagesOf(files))
      && Keys(written) == langs
  {
    GroupedByLanguageOutcome(files);
    GroupedByLanguageKeys(files);
    MergedLanguagesKeys(GroupedByLanguage(files).value, fileJson);
  }

  /** The grouping loop of `createTempLanguageFiles`. */
  method GroupByLanguage(files: seq<string>) returns (r: Result<Record<seq<string>>, ScanError>)
    ensures r == GroupedByLanguage(files)
  {
    var groups: Record<seq<string>> := [];
    var i := 0;
    while i < |files|
      invariant 0 <= i <= |files|
      invariant GroupedByLanguage(files[..i]) == Ok(groups)
    {
      var file := files[i];
      assert files[..i + 1][..i] == files[..i];
      var lang := ExtractLanguage(file);
      if lang.None? {
        GroupedErrorStays(files, i + 1);
        return Err(NoLanguageCode(file));
      }
      var existing := Get(groups, lang.value);
      if existing.Some? {
        groups := Put(groups, lang.value, existing.value + [file]);
      } else {
        assert [] + [file] == [file];
        groups := Put(groups, lang.value, [file]);
      }
      i := i + 1;
    }
    assert files[..i] == files;
    r := Ok(groups);
  }

  lemma {:induction false} GroupedErrorStays(files: seq<string>, j: nat)
    requires j <= |files|
    requires GroupedByLanguage(files[..j]).Err?
    ensures GroupedByLanguage(files) == GroupedByLanguage(files[..j])
    decreases |files| - j
  {
    if j < |files| {
      assert files[..j + 1][..j] == files[..j];
      GroupedErrorStays(files, j + 1);
    } else {
      assert files[..j] == files;
    }
  }

  /** The merge loop for one language: every file's JSON merged into the result in turn. */
  method MergeLanguageFiles(files: seq<string>, fileJson: string -> Record<Json>)
    returns (r: Result<Record<Json>, ScanError>)
    ensures r == MergedFiles(files, fileJson)
  {
    var result: Record<Json> := [];
    var i := 0;
    while i < |files|
      invariant 0 <= i <= |files|
      invariant MergedFiles(files[..i], fileJson) == Ok(result)
    {
      assert files[..i + 1][..i] == files[..i];
      var sourceJson := fileJson(files[i]);
      var merge := DeepMerge(sourceJson, result);
      if merge.Err? {
        MergedFilesErrorStays(files, fileJson, i + 1);
        return Err(MergeFailed(merge.error));
      }
      result := merge.value.1;
      i := i + 1;
    }
    assert files[..i] == files;
    r := Ok(result);
  }

  lemma {:induction false} MergedFilesErrorStays(files: seq<string>, fileJson: string -> Record<Json>, j: nat)
    requires j <= |files|
    requires MergedFiles(files[..j], fileJson).Err?
    ensures MergedFiles(files, fileJson) == MergedFiles(files[..j], fileJson)
    decreases |files| - j
  {
    if j < |files| {
      assert files[..j + 1][..j] == files[..j];
      MergedFilesErrorStays(files, fileJson, j + 1);
    } else {
      assert files[..j] == files;
    }
  }

  lemma {:induction false} MergedLanguagesErrorStays(groups: Record<seq<string>>, fileJson: string -> Record<Json>, j: nat)
    requires j <= |groups|
    requires MergedLanguages(groups[..j], fileJson).Err?
    ensures MergedLanguages(groups, fileJson) == MergedLanguages(groups[..j], fileJson)
    decreases |groups| - j
  {
    if j < |groups| {
      assert groups[..j + 1][..j] == groups[..j];
      MergedLanguagesErrorStays(groups, fileJson, j + 1);
    } else {
      assert groups[..j] == groups;
    }
  }

  /**
   * `createTempLanguageFiles(inputLanguageFiles)`: returns the language codes and the
   * content written to each temporary language file. Reading a file is `fileJson`.
   */
  method CreateTempLanguageFiles(files: seq<string>, fileJson: string -> Record<Json>)
    returns (r: Result<(seq<string>, Record<Record<Json>>), ScanError>)
    ensures r == TempLanguageFiles(files, fileJson)
  {
    var grouped := GroupByLanguage(files);
    if grouped.Err? {
      return Err(grouped.error);
    }
    var groups := grouped.value;
    var written: Record<Record<Json>> := [];
    var j := 0;
    while j < |groups|
      invariant 0 <= j <= |groups|
      invariant MergedLanguages(groups[..j], fileJson) == Ok(written)
    {
      assert groups[..j + 1][..j] == groups[..j];
      var merged := MergeLanguageFiles(groups[j].1, fileJson);
      if merged.Err? {
        MergedLanguagesErrorStays(groups, fileJson, j + 1);
        return Err(merged.error);
      }
      written := written + [(groups[j].0, merged.value)];
      j := j + 1;
    }
    assert groups[..j] == groups;
    r := Ok((Keys(groups), written));
  }

  // ---------------------------------------------------------------------------------
  // customFlush
  // ---------------------------------------------------------------------------------

  datatype LineEnding = AutoEnding | CrLf | Lf | Cr

  /** The line ending chosen from the lower-cased `lineEnding` option. */
  function LineEndingOf(option: string): (e: LineEnding)
    ensures e == AutoEnding <==> ToLower(option) == "auto"
    ensures e == CrLf <==> ToLower(option) in ["\r\n", "crlf"]
    ensures e == Cr <==> ToLower(option) in ["\r", "cr"]
    ensures e == Lf <==> ToLower(option) !in ["auto", "\r\n", "crlf", "\r", "cr"]
  {
    var o := ToLower(option);
    if o == "auto" then AutoEnding
    else if o == "\r\n" || o == "crlf" then CrLf
    else if o == "\n" || o == "lf" then Lf
    else if o == "\r" || o == "cr" then Cr
    else Lf
  }

  /** The line break written for a line ending; `auto` uses the platform's. */
  function Newline(e: LineEnding, platformNewline: string): string
  {
    match e
    case AutoEnding => platformNewline
    case CrLf => "\r\n"
    case Lf => "\n"
    case Cr => "\r"
  }

  predicate IsBreak(c: char) { c == '\r' || c == '\n' }

  /** Every line break (`\r\n`, `\r` or `\n`) of the text replaced by `nl`. */
  function ConvertLineEndings(text: string, nl: string): string
    decreases |text|
  {
    if text == [] then []
    else if |text| >= 2 && text[0] == '\r' && text[1] == '\n' then nl + ConvertLineEndings(text[2..], nl)
    else if IsBreak(text[0]) then nl + ConvertLineEndings(text[1..], nl)
    else [text[0]] + ConvertLineEndings(text[1..], nl)
  }

  /** The text with its line-break characters removed. */
  function WithoutBreaks(text: string): (r: string)
    ensures forall c :: c in r ==> !IsBreak(c)
  {
    if text == [] then [] else (if IsBreak(text[0]) then [] else [text[0]]) + WithoutBreaks(text[1..])
  }

  lemma {:induction false} WithoutBreaksAppend(a: string, b: string)
    ensures WithoutBreaks(a + b) == WithoutBreaks(a) + WithoutBreaks(b)
    decreases |a|
  {
    if a != [] {
      WithoutBreaksAppend(a[1..], b);
      assert (a + b)[1..] == a[1..] + b;
    } else {
      assert a + b == b;
    }
  }

  /** Converting line endings keeps everything but the line breaks as it was. */
  lemma {:induction false} ConvertKeepsText(text: string, nl: string)
    requires forall c :: c in nl ==> IsBreak(c)
    ensures WithoutBreaks(ConvertLineEndings(text, nl)) == WithoutBreaks(text)
    decreases |text|
  {
    assert WithoutBreaks(nl) == [] by {
      if nl != [] {
        assert nl[0] in nl;
        assert nl[1..] == [] || nl[1] in nl;
        if nl[1..] != [] { assert |nl[1..]| == 1 || nl[2] in nl; }
      }
      WithoutBreaksOfBreaks(nl);
    }
    if text != [] {
      if |text| >= 2 && text[0] == '\r' && text[1] == '\n' {
        ConvertKeepsText(text[2..], nl);
        WithoutBreaksAppend(nl, ConvertLineEndings(text[2..], nl));
        assert WithoutBreaks(text) == WithoutBreaks(text[1..]);
        assert text[1..][1..] == text[2..];
      } else if IsBreak(text[0]) {
        ConvertKeepsText(text[1..], nl);
        WithoutBreaksAppend(nl, ConvertLineEndings(text[1..], nl));
      } else {
        ConvertKeepsText(text[1..], nl);
        WithoutBreaksAppend([text[0]], ConvertLineEndings(text[1..], nl));
      }
    }
  }

  lemma {:induction false} WithoutBreaksOfBreaks(s: string)
    requires forall c :: c in s ==> IsBreak(c)
    ensures WithoutBreaks(s) == []
    decreases |s|
  {
    if s != [] {
      assert s[0] in s;
      assert forall c :: c in s[1..] ==> c in s;
      WithoutBreaksOfBreaks(s[1..]);
    }
  }

  /**
   * Converting to a one-character line ending (CR or LF) leaves none of the other break
   * character behind.
   */
  lemma {:induction false} ConvertLeavesNoOtherBreak(text: string, nl: string, other: char)
    requires (nl == "\r" && other == '\n') || (nl == "\n" && other == '\r')
    ensures other !in ConvertLineEndings(text, nl)
    decreases |text|
  {
    if text != [] {
      if |text| >= 2 && text[0] == '\r' && text[1] == '\n' {
        ConvertLeavesNoOtherBreak(text[2..], nl, other);
      } else {
        ConvertLeavesNoOtherBreak(text[1..], nl, other);
      }
    }
  }

  /** Converting the line endings of an already converted text changes nothing. */
  lemma {:induction false} ConvertLineEndingsIdempotent(text: string, nl: string)
    requires nl in ["\n", "\r\n", "\r"]
    ensures ConvertLineEndings(ConvertLineEndings(text, nl), nl) == ConvertLineEndings(text, nl)
    decreases |text|
  {
    if text != [] {
      var rest := if |text| >= 2 && text[0] == '\r' && text[1] == '\n' then text[2..] else text[1..];
      var c := ConvertLineEndings(rest, nl);
      ConvertLineEndingsIdempotent(rest, nl);
      if IsBreak(text[0]) {
        assert ConvertLineEndings(text, nl) == nl + c;
        if nl == "\r" {
          ConvertLeavesNoOtherBreak(rest, nl, '\n');
          assert c == [] || c[0] != '\n' by {
            if c != [] { assert c[0] in c; }
          }
          assert (nl + c)[1..] == c;
        } else if nl == "\n" {
          assert (nl + c)[1..] == c;
        } else {
          assert (nl + c)[2..] == c;
        }
      } else {
        assert ([text[0]] + c)[1..] == c;
      }
    }
  }

  /** The `removeUnusedKeys` option and the rest of what `customFlush` reads from the parser. */
  datatype FlushOptions = FlushOptions(defaultLng: string, removeUnusedKeys: bool, lineEnding: string)

  /** A value whose key path ends there when the keys are flattened: anything but a non-empty object. */
  predicate IsLeaf(v: Json) { !(v.JObject? && v.fields != []) }

  /**
   * The existing file with every leaf path that is not also a leaf path of the scanned
   * namespace unset, and then every empty object omitted.
   */
  function RemoveUnusedKeys(existing: Record<Json>, scanned: Record<Json>): Record<Json>
    decreases RecordSize(existing)
  {
    if existing == [] then []
    else
      RecordSizeHead(existing);
      var k := existing[0].0;
      var v := existing[0].1;
      var rest := RemoveUnusedKeys(existing[1..], scanned);
      if !IsLeaf(v) then
        var sv := Get(scanned, k);
        var used := if sv.Some? && sv.value.JObject? then sv.value.fields else [];
        var kept := RemoveUnusedKeys(v.fields, used);
        if kept == [] then rest else [(k, JObject(kept))] + rest
      else if v != JObject([]) && Get(scanned, k).Some? && IsLeaf(Get(scanned, k).value) then [(k, v)] + rest
      else rest
  }

  lemma RecordSizeHead(r: Record<Json>)
    requires r != []
    ensures RecordSize(r[1..]) < RecordSize(r)
    ensures r[0].1.JObject? ==> RecordSize(r[0].1.fields) < RecordSize(r)
  {
    assert JsonSize(r[0].1) >= 1;
  }

  /** Against an empty namespace nothing is used, so nothing is kept. */
  lemma {:induction false} RemoveAllUnused(existing: Record<Json>)
    ensures RemoveUnusedKeys(existing, []) == []
    decreases RecordSize(existing)
  {
    if existing != [] {
      RecordSizeHead(existing);
      var v := existing[0].1;
      RemoveAllUnused(existing[1..]);
      if !IsLeaf(v) {
        RemoveAllUnused(v.fields);
      }
    }
  }

  /** A leaf entry that the namespace also has as a leaf, and that is not an empty object. */
  predicate KeptLeaf(entry: (string, Json), scanned: Record<Json>)
  {
    IsLeaf(entry.1) && entry.1 != JObject([]) && HasKey(scanned, entry.0) && IsLeaf(Get(scanned, entry.0).value)
  }

  /**
   * What is left of the existing file: only keys the scanned namespace has, no empty
   * object, leaf values unchanged and only where the namespace has a leaf too; and every
   * leaf entry that the namespace also has as a leaf is kept.
   */
  lemma RemoveUnusedKeysSpec(existing: Record<Json>, scanned: Record<Json>)
    ensures var r := RemoveUnusedKeys(existing, scanned);
      && (forall i :: 0 <= i < |r| ==> HasKey(scanned, r[i].0) && HasKey(existing, r[i].0))
      && (forall i :: 0 <= i < |r| ==> r[i].1 != JObject([]))
      && (forall i :: 0 <= i < |r| && IsLeaf(r[i].1) ==>
            r[i] in existing && IsLeaf(Get(scanned, r[i].0).value))
      && (forall i :: 0 <= i < |existing| && KeptLeaf(existing[i], scanned) ==> existing[i] in r)
  {
    RemoveUnusedKeysSound(existing, scanned);
    RemoveUnusedKeysKeeps(existing, scanned);
  }

  /** The result's `r[0]` and the rest: the head entry is kept (possibly pruned) or dropped. */
  lemma RemoveUnusedKeysHead(existing: Record<Json>, scanned: Record<Json>)
    requires existing != []
    ensures var r := RemoveUnusedKeys(existing, scanned);
      var rest := RemoveUnusedKeys(existing[1..], scanned);
      && (r == rest || (r == [r[0]] + rest && r[0].0 == existing[0].0))
      && (r != rest ==> HasKey(scanned, existing[0].0) && r[0].1 != JObject([]))
      && (r != rest && IsLeaf(r[0].1) ==> r[0] == existing[0] && IsLeaf(Get(scanned, existing[0].0).value))
      && (KeptLeaf(existing[0], scanned) ==> r == [existing[0]] + rest)
  {
    RecordSizeHead(existing);
    var v := existing[0].1;
    if !IsLeaf(v) {
      var sv := Get(scanned, existing[0].0);
      if !(sv.Some? && sv.value.JObject?) {
        RemoveAllUnused(v.fields);
      }
    }
  }

  lemma {:induction false} RemoveUnusedKeysSound(existing: Record<Json>, scanned: Record<Json>)
    ensures var r := RemoveUnusedKeys(existing, scanned);
      && (forall i :: 0 <= i < |r| ==> HasKey(scanned, r[i].0) && HasKey(existing, r[i].0))
      && (forall i :: 0 <= i < |r| ==> r[i].1 != JObject([]))
      && (forall i :: 0 <= i < |r| && IsLeaf(r[i].1) ==>
            r[i] in existing && IsLeaf(Get(scanned, r[i].0).value))
    decreases RecordSize(existing)
  {
    if existing != [] {
      var k := existing[0].0;
      var tail := existing[1..];
      RecordSizeHead(existing);
      RemoveUnusedKeysSound(tail, scanned);
      RemoveUnusedKeysHead(existing, scanned);
      assert HasKey(existing, k) by { assert existing[0].0 == k; }
      forall x | HasKey(tail, x) ensures HasKey(existing, x) {
        var i :| 0 <= i < |tail| && tail[i].0 == x;
        assert existing[i + 1].0 == x;
      }
      forall e | e in tail ensures e in existing {
        var i :| 0 <= i < |tail| && tail[i] == e;
        assert existing[i + 1] == e;
      }
      assert existing[0] in existing;
    }
  }

  lemma {:induction false} RemoveUnusedKeysKeeps(existing: Record<Json>, scanned: Record<Json>)
    ensures var r := RemoveUnusedKeys(existing, scanned);
      forall i :: 0 <= i < |existing| && KeptLeaf(existing[i], scanned) ==> existing[i] in r
    decreases RecordSize(existing)
  {
    if existing != [] {
      var tail := existing[1..];
      RecordSizeHead(existing);
      RemoveUnusedKeysKeeps(tail, scanned);
      RemoveUnusedKeysHead(existing, scanned);
      var r := RemoveUnusedKeys(existing, scanned);
      forall i | 0 <= i < |existing| && KeptLeaf(existing[i], scanned)
        ensures existing[i] in r
      {
        if i > 0 { assert existing[i] == tail[i - 1]; }
      }
    }
  }

  /**
   * The content written for one namespace: the scanned keys, and for any language but the
   * default one the existing file's content spread over them, after the unused keys are
   * removed when the option asks for it.
   */
  function NamespaceContent(lng: string, scanned: Record<Json>, existing: Record<Json>, options: FlushOptions)
    : Record<Json>
  {
    if lng == options.defaultLng then scanned
    else PutAll(scanned, if options.removeUnusedKeys then RemoveUnusedKeys(existing, scanned) else existing)
  }

  /**
   * For the default language the scanned keys are written as they are. For another
   * language an existing value wins over the scanned one, and a key of neither is absent.
   */
  lemma NamespaceContentSpec(lng: string, scanned: Record<Json>, existing: Record<Json>, options: FlushOptions, k: string)
    ensures lng == options.defaultLng ==> NamespaceContent(lng, scanned, existing, options) == scanned
    ensures lng != options.defaultLng && !options.removeUnusedKeys ==>
      Get(NamespaceContent(lng, scanned, existing, options), k)
        == if HasKey(existing, k) then LastGet(existing, k) else Get(scanned, k)
    ensures lng != options.defaultLng && options.removeUnusedKeys ==>
      (HasKey(NamespaceContent(lng, scanned, existing, options), k) <==> HasKey(scanned, k))
  {
    if lng != options.defaultLng {
      var kept := if options.removeUnusedKeys then RemoveUnusedKeys(existing, scanned) else existing;
      GetPutAll(scanned, kept, k);
      if options.removeUnusedKeys {
        RemoveUnusedKeysSpec(existing, scanned);
        if HasKey(kept, k) {
          var i :| 0 <= i < |kept| && kept[i].0 == k;
          assert HasKey(scanned, kept[i].0);
        }
      }
    }
  }

  /** The text of a written file: the rendered JSON, a line break, all breaks converted. */
  function FileText(content: Record<Json>, options: FlushOptions, render: Record<Json> -> string,
                    platformNewline: string): string
  {
    ConvertLineEndings(render(content) + "\n", Newline(LineEndingOf(options.lineEnding), platformNewline))
  }

  /**
   * One namespace of `customFlush`: `obj` and `text` reassigned step by step. Reading the
   * existing file is `existing`; `JSON.stringify` is `render`.
   */
  method FlushNamespace(lng: string, scanned: Record<Json>, existing: Record<Json>, options: FlushOptions,
                        render: Record<Json> -> string, platformNewline: string)
    returns (obj: Record<Json>, text: string)
    ensures obj == NamespaceContent(lng, scanned, existing, options)
    ensures text == FileText(obj, options, render, platformNewline)
  {
    obj := scanned;
    if lng != options.defaultLng {
      var resContent := existing;
      if options.removeUnusedKeys {
        resContent := RemoveUnusedKeys(resContent, obj);
      }
      obj := PutAll(obj, resContent);
    }
    text := render(obj) + "\n";
    var lineEnding := ToLower(options.lineEnding);
    if lineEnding == "auto" {
      text := ConvertLineEndings(text, platformNewline);
    } else if lineEnding == "\r\n" || lineEnding == "crlf" {
      text := ConvertLineEndings(text, "\r\n");
    } else if lineEnding == "\n" || lineEnding == "lf" {
      text := ConvertLineEndings(text, "\n");
    } else if lineEnding == "\r" || lineEnding == "cr" {
      text := ConvertLineEndings(text, "\r");
    } else {
      text := ConvertLineEndings(text, "\n");
    }
  }

  /** A file the flush pushes: its path and its text. */
  datatype WrittenFile = WrittenFile(path: string, text: string)

  /** The files written for the namespaces of one language, in order. */
  function FlushedNamespaces(lng: string, namespaces: Record<Record<Json>>, existing: (string, string) -> Record<Json>,
                             savePath: (string, string) -> string, options: FlushOptions,
                             render: Record<Json> -> string, platformNewline: string): (files: seq<WrittenFile>)
    ensures |files| == |namespaces|
    decreases |namespaces|
  {
    if namespaces == [] then []
    else
      var init := namespaces[..|namespaces| - 1];
      var (ns, scanned) := namespaces[|namespaces| - 1];
      var content := NamespaceContent(lng, scanned, existing(lng, ns), options);
      FlushedNamespaces(lng, init, existing, savePath, options, render, platformNewline)
        + [WrittenFile(savePath(lng, ns), FileText(content, options, render, platformNewline))]
  }

  /** The files written for the whole resource store: language by language, namespace by namespace. */
  function FlushedStore(resStore: Record<Record<Record<Json>>>, existing: (string, string) -> Record<Json>,
                        savePath: (string, string) -> string, options: FlushOptions,
                        render: Record<Json> -> string, platformNewline: string): seq<WrittenFile>
    decreases |resStore|
  {
    if resStore == [] then []
    else
      var (lng, namespaces) := resStore[|resStore| - 1];
      FlushedStore(resStore[..|resStore| - 1], existing, savePath, options, render, platformNewline)
        + FlushedNamespaces(lng, namespaces, existing, savePath, options, render, platformNewline)
  }

  /** One file per namespace of every language. */
  lemma {:induction false} FlushedStoreCount(resStore: Record<Record<Record<Json>>>, existing: (string, string) -> Record<Json>,
                                            savePath: (string, string) -> string, options: FlushOptions,
                                            render: Record<Json> -> string, platformNewline: string)
    ensures |FlushedStore(resStore, existing, savePath, options, render, platformNewline)| == NamespaceCount(resStore)
    decreases |resStore|
  {
    if resStore != [] {
      FlushedStoreCount(resStore[..|resStore| - 1], existing, savePath, options, render, platformNewline);
    }
  }

  function NamespaceCount(resStore: Record<Record<Record<Json>>>): nat
    decreases |resStore|
  {
    if resStore == [] then 0 else NamespaceCount(resStore[..|resStore| - 1]) + |resStore[|resStore| - 1].1|
  }

  /**
   * `customFlush`: every namespace of every language of the resource store becomes one
   * file. `existing` reads the file at a language and namespace; `savePath` is the
   * parser's `formatResourceSavePath`.
   */
  method CustomFlush(resStore: Record<Record<Record<Json>>>, existing: (string, string) -> Record<Json>,
                     savePath: (string, string) -> string, options: FlushOptions,
                     render: Record<Json> -> string, platformNewline: string)
    returns (files: seq<WrittenFile>)
    ensures files == FlushedStore(resStore, existing, savePath, options, render, platformNewline)
  {
    files := [];
    var i := 0;
    while i < |resStore|
      invariant 0 <= i <= |resStore|
      invariant files == FlushedStore(resStore[..i], existing, savePath, options, render, platformNewline)
    {
      assert resStore[..i + 1][..i] == resStore[..i];
      var (lng, namespaces) := resStore[i];
      var before := files;
      var j := 0;
      while j < |namespaces|
        invariant 0 <= j <= |namespaces|
        invariant files == before + FlushedNamespaces(lng, namespaces[..j], existing, savePath, options, render, platformNewline)
      {
        assert namespaces[..j + 1][..j] == namespaces[..j];
        var (ns, scanned) := namespaces[j];
        var obj, text := FlushNamespace(lng, scanned, existing(lng, ns), options, render, platformNewline);
        files := files + [WrittenFile(savePath(lng, ns), text)];
        j := j + 1;
      }
      assert namespaces[..j] == namespaces;
      i := i + 1;
    }
    assert resStore[..i] == resStore;
  }
}
