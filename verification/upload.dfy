/**
 * The multipart upload handler's naming of stored objects. A part with a file name is stored
 * under `<path>_<baseName><ext>`, where `ext` is the name's extension and `baseName` is the name
 * with every character outside `[A-Za-z0-9_-]` removed and then the first occurrence of `ext`
 * removed. A part without a file name is an ordinary text field.
 *
 * The bytes of a part, their text decoding and the storage client are not modelled: the decoded
 * text is a parameter and the storage call is a function from object key to the stored path.
 */
module Upload {
  import opened Results
  import opened Text
  import opened Seqs
  import opened Format

  /** A character the sanitiser keeps: `[A-Za-z0-9_-]`. */
  predicate IsKeyChar(c: char) { IsWordChar(c) || c == '-' }

  /** `filename.replace(/[^a-zA-Z0-9_-]/g, "")` */
  function StripDisallowed(s: string): (r: string)
    ensures forall c | c in r :: IsKeyChar(c)
    ensures forall i | 0 <= i < |s| && IsKeyChar(s[i]) :: s[i] in r
  {
    Filter(s, IsKeyChar)
  }

  /** The sanitiser keeps every occurrence of a kept character and drops all others. */
  lemma StripCounts(s: string)
    ensures forall c :: multiset(StripDisallowed(s))[c] == if IsKeyChar(c) then multiset(s)[c] else 0
  {
    FilterMultiset(s, IsKeyChar);
  }

  /** One character is kept iff it is in `[A-Za-z0-9_-]`; with StripSplit this fixes the order. */
  lemma StripOne(c: char)
    ensures StripDisallowed([c]) == if IsKeyChar(c) then [c] else []
  {
  }

  /** "a.b" is stripped to "ab", in that order. */
  lemma StripKeepsOrder()
    ensures StripDisallowed("a.b") == "ab"
  {
    assert "a.b" == ['a'] + ['.'] + ['b'];
    StripSplit(['a'] + ['.'], ['b']);
    StripSplit(['a'], ['.']);
  }

  /** The name part of the stored object: stripped, then with the extension's first occurrence removed. */
  function BaseName(fileName: string): string {
    ReplaceFirst(StripDisallowed(fileName), GetFileExtension(fileName), "")
  }

  /** The storage key under which a file called `fileName` is uploaded below `path`. */
  function ObjectKey(path: string, fileName: string): string {
    path + "_" + BaseName(fileName) + GetFileExtension(fileName)
  }

  /** What the handler returns for a part: the field's text, or the path the storage reports. */
  datatype PartValue = TextField(text: string) | StoredFile(path: string)

  /** The storage call failed; the handler rethrows its error. */
  datatype UploadError = StorageError

  /** The handler's result together with the object key it uploaded, if it uploaded anything. */
  datatype PartOutcome = PartOutcome(value: Result<PartValue, UploadError>, uploaded: Option<string>)

  /**
   * `supabaseUploadHandler(path)` applied to one part. `decoded` is the part's bytes decoded as
   * text; `store(key)` is the storage's answer to an upload under `key`: the stored path, or
   * `None` for an error or a missing result.
   */
  function HandlePart(path: string, fileName: Option<string>, decoded: string,
                      store: string -> Option<string>): (r: PartOutcome)
    ensures (fileName == None || fileName == Some("")) <==> r.uploaded == None
    ensures r.uploaded == None ==> r.value == Ok(TextField(decoded))
    ensures r.uploaded != None ==>
      var key := ObjectKey(path, fileName.value);
      r.uploaded == Some(key) &&
      r.value == (if store(key).Some? then Ok(StoredFile(store(key).value)) else Err(StorageError))
  {
    match fileName
    case None => PartOutcome(Ok(TextField(decoded)), None)
    case Some(name) =>
      if name == "" then PartOutcome(Ok(TextField(decoded)), None)
      else
        var key := path + "_" + BaseName(name) + GetFileExtension(name);
        match store(key)
        case None => PartOutcome(Err(StorageError), Some(key))
        case Some(stored) => PartOutcome(Ok(StoredFile(stored)), Some(key))
  }

  /** Replacing the empty pattern inserts the replacement at the front. */
  lemma ReplaceEmpty(s: string)
    ensures ReplaceFirst(s, "", "") == s
  {
    assert IndexFrom(s, "", 0) == 0;
  }

  /**
   * The second `replace` never removes anything: the extension is empty or starts with a dot, and
   * the sanitiser already removed every dot.
   */
  lemma BaseNameIsStripped(fileName: string)
    ensures BaseName(fileName) == StripDisallowed(fileName)
  {
    var s, ext := StripDisallowed(fileName), GetFileExtension(fileName);
    if ext == "" {
      ReplaceEmpty(s);
    } else {
      assert '.' !in s;
      forall k | 0 <= k <= |s| - |ext| ensures !OccursAt(s, ext, k) {
        assert s[k] in s && s[k..k + |ext|][0] == s[k];
      }
    }
  }

  /** The base name holds only `[A-Za-z0-9_-]`, and every such character of the file name, counted. */
  lemma BaseNameAllowed(fileName: string)
    ensures forall c | c in BaseName(fileName) :: IsKeyChar(c)
    ensures forall c :: multiset(BaseName(fileName))[c] == if IsKeyChar(c) then multiset(fileName)[c] else 0
  {
    BaseNameIsStripped(fileName);
    StripCounts(fileName);
  }

  /**
   * The stored key is the path, an underscore, the sanitised name and the file's extension; the
   * key ends with `GetFileExtension(fileName)`, and that extension is read back from the key.
   */
  lemma ObjectKeyShape(path: string, fileName: string)
    ensures ObjectKey(path, fileName) == path + "_" + StripDisallowed(fileName) + GetFileExtension(fileName)
    ensures var key, ext := ObjectKey(path, fileName), GetFileExtension(fileName);
      |ext| <= |key| && key[|key| - |ext|..] == ext
    ensures '.' in fileName ==> GetFileExtension(ObjectKey(path, fileName)) == GetFileExtension(fileName)
  {
    BaseNameIsStripped(fileName);
    var ext := GetFileExtension(fileName);
    var prefix := path + "_" + StripDisallowed(fileName);
    assert ObjectKey(path, fileName) == prefix + ext;
    if '.' in fileName {
      ExtensionUnique(prefix + ext, prefix, ext);
    }
  }

  /** A run of key characters survives the sanitiser unchanged. */
  lemma {:induction false} StripKept(s: string)
    requires forall c | c in s :: IsKeyChar(c)
    ensures Filter(s, IsKeyChar) == s
  {
    if s != [] {
      assert forall c | c in s[1..] :: c in s;
      StripKept(s[1..]);
    }
  }

  /**
   * Stripping distributes over the pieces of a name: the sanitiser works character by character,
   * so the kept characters stay in order.
   */
  lemma StripSplit(a: string, b: string)
    ensures StripDisallowed(a + b) == StripDisallowed(a) + StripDisallowed(b)
  {
    FilterAppend(a, b, IsKeyChar);
  }

  /** Dropping one disallowed character between two runs of kept characters. */
  lemma StripBetween(a: string, d: char, b: string)
    requires forall c | c in a :: IsKeyChar(c)
    requires forall c | c in b :: IsKeyChar(c)
    requires !IsKeyChar(d)
    ensures StripDisallowed(a + [d] + b) == a + b
  {
    StripSplit(a + [d], b);
    StripSplit(a, [d]);
    assert [d][1..] == [];
    assert StripDisallowed([d]) == [];
    StripKept(a);
    StripKept(b);
    calc {
      StripDisallowed(a + [d] + b);
      StripDisallowed(a + [d]) + StripDisallowed(b);
      StripDisallowed(a) + [] + StripDisallowed(b);
      { assert StripDisallowed(a) + [] == a; }
      a + b;
    }
  }

  /**
   * A name made of two runs of kept characters around one dot loses only the dot: its base name
   * is the two runs joined, and it is stored under `<path>_<a><b>.<b>`.
   */
  lemma SimpleNameKey(path: string, a: string, b: string)
    requires forall c | c in a :: IsKeyChar(c)
    requires forall c | c in b :: IsKeyChar(c)
    ensures BaseName(a + ['.'] + b) == a + b
    ensures ObjectKey(path, a + ['.'] + b) == path + "_" + (a + b) + (['.'] + b)
  {
    var f := a + ['.'] + b;
    StripBetween(a, '.', b);
    BaseNameIsStripped(f);
    Assoc(a, ['.'], b);
    ExtensionUnique(f, a, ['.'] + b);
  }

  /** A file named `"photo.jpg"` has base name `"photojpg"` and is stored under `<path>_photojpg.jpg`. */
  lemma PhotoJpg(path: string)
    ensures BaseName("photo.jpg") == "photo" + "jpg"
    ensures ObjectKey(path, "photo.jpg") == path + "_" + ("photo" + "jpg") + ".jpg"
  {
    var a, b := "photo", "jpg";
    assert "photo.jpg" == a + ['.'] + b;
    assert ".jpg" == ['.'] + b;
    SimpleNameKey(path, a, b);
  }

  /** Dropping two disallowed characters between three runs of kept characters. */
  lemma StripBetweenTwo(a: string, d: char, b: string, e: char, c: string)
    requires forall x | x in a :: IsKeyChar(x)
    requires forall x | x in b :: IsKeyChar(x)
    requires forall x | x in c :: IsKeyChar(x)
    requires !IsKeyChar(d) && !IsKeyChar(e)
    ensures StripDisallowed(a + [d] + b + [e] + c) == a + b + c
  {
    Assoc(a + [d] + b, [e], c);
    StripSplit(a + [d] + b, [e] + c);
    StripBetween(a, d, b);
    StripSplit([e], c);
    assert [e][1..] == [];
    assert StripDisallowed([e]) == [];
    StripKept(c);
  }

  /** Concatenation is associative. */
  lemma Assoc(x: string, y: string, z: string)
    ensures x + y + z == x + (y + z)
  {
  }

  /** Re-bracketing a name into the part before its dot and the dotted rest. */
  lemma Regroup(a: string, b: string, e: char, c: string)
    ensures a + ['.'] + b + [e] + c == a + (['.'] + (b + [e] + c))
  {
  }

  /**
   * The extension is not sanitised: in a name such as `"a.b c"`, a disallowed character `e` after
   * the last dot is removed from the base name but reaches the stored key through the extension.
   */
  lemma ExtensionNotSanitised(path: string, a: string, b: string, e: char, c: string)
    requires forall x | x in a :: IsKeyChar(x)
    requires forall x | x in b :: IsKeyChar(x)
    requires forall x | x in c :: IsKeyChar(x)
    requires !IsKeyChar(e) && e != '.'
    ensures var ext := ['.'] + (b + [e] + c);
      ObjectKey(path, a + ext) == path + "_" + (a + b + c) + ext && e in ext
  {
    var tail := b + [e] + c;
    var ext := ['.'] + tail;
    Regroup(a, b, e, c);
    StripBetweenTwo(a, '.', b, e, c);
    BaseNameIsStripped(a + ext);
    assert ext[1..] == tail && '.' !in tail;
    ExtensionUnique(a + ext, a, ext);
    assert tail[|b|] == e;
  }
}
