/** Downloading the raw file of a run, and the file name it is given. */
module Downloads {
  import opened Wrappers
  import opened Bytes
  import opened RunFile
  import opened Uploads

  // ---- File names keep the extension ----

  /** A byte that is not white space and is no part of a wide white-space character's tail. */
  predicate Solid(c: byte) {
    0x20 < c < 0x80
  }

  lemma SolidIsNoSpace(s: Text, i: nat, n: nat)
    requires i < |s| && Solid(s[i])
    ensures EndsWithSpace(s, n) ==> i < |s| - n
  {
    if |s| - n <= i && n <= |s| {
      assert s[|s| - n..][i - (|s| - n)] == s[i];
    }
  }

  lemma {:induction false} TrimRightKeepsSolid(s: Text, i: nat)
    requires i < |s| && Solid(s[i])
    ensures |TrimRight(s)| > i
    decreases |s|
  {
    hide TrailingSpace, EndsWithSpace;
    var n := TrailingSpace(s);
    if n > 0 {
      SolidIsNoSpace(s, i, n);
      TrimRightKeepsSolid(s[..|s| - n], i);
    }
  }

  lemma NoSpaceAcrossExtension(s: Text)
    requires |s| > 0 && LeadingSpace(s) == 0
    ensures LeadingSpace(s + EXTENSION) == 0
  {
    var t := s + EXTENSION;
    forall k | 1 <= k <= 3 ensures !StartsWithSpace(t, k) {
      if k <= |s| {
        assert t[..k] == s[..k];
        assert !StartsWithSpace(s, k);
      } else {
        assert t[..k][|s|] == EXTENSION[0];
      }
    }
  }

  /** An extended name is already trimmed. */
  lemma ExtendedIsTrimmed(s: Text)
    requires |s| > 0 && LeadingSpace(s) == 0
    ensures TrimSpace(s + EXTENSION) == s + EXTENSION
  {
    NoSpaceAcrossExtension(s);
    var t := s + EXTENSION;
    assert t[|t| - 1] == 0x73;
    TrimRightKeepsSolid(t, |t| - 1);
    TrimRightIsPrefix(t);
  }

  /** A name that is not blank ends up with the extension, and extending it again changes nothing. */
  lemma ExtensionStaysAttached(name: Text)
    ensures TrimSpace(name) != [] ==> HasExtension(EnsureExtension(name))
    ensures EnsureExtension(EnsureExtension(name)) == EnsureExtension(name)
  {
    var t := TrimSpace(name);
    TrimSpaceIdempotent(name);
    hide TrimSpace;
    if t != [] {
      ExtendedIsTrimmed(t);
      HasOwnExtension(t);
    }
  }

  lemma HasOwnExtension(s: Text)
    ensures HasExtension(s + EXTENSION)
  {
    assert (s + EXTENSION)[|s|..] == EXTENSION;
  }

  lemma HashIsTrimmed(hash: Hash)
    ensures TrimSpace(hash + EXTENSION) == hash + EXTENSION
  {
    assert hash[0] in hash;
    ExtendedIsTrimmed(hash);
  }

  // ---- The download ----

  datatype DownloadError = NotAvailable | InvalidHash | LookupFailed | NotFound | StoreFailed

  datatype DownloadResult = Denied(error: DownloadError) | Downloaded(hash: Hash, fileName: Text, body: Text)

  /** What is served for a row: its object, under its name, or under its hash if the name is blank. */
  predicate Serves(row: RunMetadata, h: Hash, objects: map<Text, Text>, fileName: Text, body: Text) {
    && row.objectKey in objects && body == objects[row.objectKey] && HasExtension(fileName)
    && fileName == if TrimSpace(row.fileName) != [] then EnsureExtension(row.fileName)
                   else h + [0x2E, 0x72, 0x65, 0x66, 0x6C, 0x65, 0x6B, 0x73]
  }

  /**
   * Serves the bytes of a run. The row is looked up in one state of the service and the object is fetched in a later
   * one. Each refusal has exactly one cause, and anything else is served.
   */
  method DownloadRaw(cfg: Config, looked: Db, later: Db, hash: Text, lookup: Reply, get: Reply)
    returns (r: DownloadResult)
    ensures var h := Canonical(hash); var asked := cfg.hasStore && IsHash(h);
        var found := asked && lookup.Success? && h in looked.rows && looked.rows[h].objectKey != [];
      && (r == Denied(NotAvailable) <==> !cfg.hasStore)
      && (r == Denied(InvalidHash) <==> cfg.hasStore && !HexDigits(TrimSpace(hash)))
      && (r == Denied(LookupFailed) <==> asked && lookup.Failure?)
      && (r == Denied(NotFound) <==> asked && lookup.Success? && !found)
      && (r == Denied(StoreFailed) <==> found && (get.Failure? || looked.rows[h].objectKey !in later.objects))
      && (r.Downloaded? <==> found && get.Success? && looked.rows[h].objectKey in later.objects)
      && (r.Downloaded? ==>
            && r.hash == h && Spells(TrimSpace(hash), h) && Serve(looked, later, h) == Some(r.body)
            && Serves(looked.rows[h], h, later.objects, r.fileName, r.body))
  {
    hide TrimSpace, IsHash, HexDigits, Spells, HasExtension, EnsureExtension, Canonical;
    CanonicalIsHash(hash);
    if !cfg.hasStore {
      return Denied(NotAvailable);
    }
    var normalized := Canonical(hash);
    if !IsHash(normalized) {
      return Denied(InvalidHash);
    }
    if lookup.Failure? {
      return Denied(LookupFailed);
    }
    if normalized !in looked.rows || looked.rows[normalized].objectKey == [] {
      return Denied(NotFound);
    }
    var run := looked.rows[normalized];
    if get.Failure? || run.objectKey !in later.objects {
      return Denied(StoreFailed);
    }
    var fileName := TrimSpace(run.fileName);
    NamesOfTrimmed(run.fileName, normalized);
    CanonicalSpells(hash, normalized);
    if fileName == [] {
      fileName := normalized + EXTENSION;
    }
    fileName := EnsureExtension(fileName);
    r := Downloaded(normalized, fileName, later.objects[run.objectKey]);
  }

  lemma NamesOfTrimmed(fileName: Text, hash: Hash)
    ensures EnsureExtension(TrimSpace(fileName)) == EnsureExtension(fileName)
    ensures TrimSpace(fileName) != [] ==> HasExtension(EnsureExtension(fileName))
    ensures EnsureExtension(hash + EXTENSION) == hash + EXTENSION && HasExtension(hash + EXTENSION)
  {
    TrimSpaceIdempotent(fileName);
    ExtensionStaysAttached(fileName);
    HashIsTrimmed(hash);
    HasOwnExtension(hash);
    hide TrimSpace;
  }
}
