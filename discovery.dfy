/**
 * Migration discovery: which directory entries name migrations, how a
 * migration name is obtained from an entry, and which names are pending
 * (FileDateMigrator::getMigrationFiles and ::getPendingMigrations).
 */
module Discovery {
  import opened Wrappers

  /** The file extension of a migration definition. */
  const Extension: string := ".php"

  /** `s` begins with the extension, compared character by character as strpos does. */
  predicate StartsWithExtension(s: string)
  {
    |s| >= 4 && s[0] == '.' && s[1] == 'p' && s[2] == 'h' && s[3] == 'p'
  }

  /** The character-wise comparison is the comparison with the extension. */
  lemma StartsWithExtensionAgrees(s: string)
    ensures StartsWithExtension(s) <==> |s| >= |Extension| && s[..|Extension|] == Extension
  {
    if |s| >= |Extension| && s[..|Extension|] == Extension {
      assert s[..|Extension|][1] == 'p';
    }
  }

  /** The extension occurs in `s` starting at position `i`. */
  predicate OccursAt(s: string, i: int)
  {
    0 <= i <= |s| && StartsWithExtension(s[i..])
  }

  /** `strpos($file, '.php') !== false`: the extension occurs somewhere in `s` (see HasExtensionOccurs). */
  function HasExtension(s: string): bool
    decreases |s|
  {
    if |s| < |Extension| then false
    else if StartsWithExtension(s) then true
    else HasExtension(s[1..])
  }

  /** The scan finds the extension exactly when it occurs at some position. */
  lemma {:induction false} HasExtensionOccurs(s: string)
    ensures HasExtension(s) <==> exists i :: OccursAt(s, i)
    decreases |s|
  {
    if |s| < |Extension| {
      assert forall i :: !OccursAt(s, i);
    } else if StartsWithExtension(s) {
      assert OccursAt(s, 0);
    } else {
      HasExtensionOccurs(s[1..]);
      assert forall i :: 0 <= i <= |s| - 1 ==> s[1..][i..] == s[i + 1..];
      assert !OccursAt(s, 0);
      assert forall i :: OccursAt(s, i) ==> OccursAt(s[1..], i - 1);
      assert forall i :: OccursAt(s[1..], i) ==> OccursAt(s, i + 1);
    }
  }

  /**
   * `str_replace('.php', '', $file)`: every occurrence of the extension
   * removed, scanning left to right without overlap.
   */
  function StripExtension(s: string): (r: string)
    ensures |r| <= |s|
    ensures !HasExtension(s) ==> r == s
    ensures HasExtension(s) ==> |r| <= |s| - |Extension|
    decreases |s|
  {
    if |s| < |Extension| then s
    else if StartsWithExtension(s) then StripExtension(s[|Extension|..])
    else [s[0]] + StripExtension(s[1..])
  }

  /**
   * getMigrationFiles as a function of the directory listing: the entries
   * that contain the extension, each with the extension removed, in
   * listing order.
   */
  function MigrationFiles(listing: seq<string>): (names: seq<string>)
    ensures |names| <= |listing|
    decreases |listing|
  {
    if listing == [] then []
    else
      var last := listing[|listing| - 1];
      MigrationFiles(listing[..|listing| - 1]) + (if HasExtension(last) then [StripExtension(last)] else [])
  }

  /** The file name a migration is stored under. */
  function FileName(name: string): string
  {
    name + Extension
  }

  /** The file names of the migrations `names`, in order. */
  function FileNames(names: seq<string>): (files: seq<string>)
    ensures |files| == |names|
    decreases |names|
  {
    if names == [] then [] else FileNames(names[..|names| - 1]) + [FileName(names[|names| - 1])]
  }

  /**
   * getPendingMigrations (`array_diff`): the discovered names that are not
   * recorded, in discovery order.
   */
  function Pending(files: seq<string>, ran: seq<string>): (p: seq<string>)
    ensures |p| <= |files|
    decreases |files|
  {
    if files == [] then []
    else
      var last := files[|files| - 1];
      Pending(files[..|files| - 1], ran) + (if last in ran then [] else [last])
  }

  /** A name is pending exactly when it is discovered and not recorded. */
  lemma {:induction false} PendingMembers(files: seq<string>, ran: seq<string>)
    ensures forall x :: x in Pending(files, ran) <==> x in files && x !in ran
    decreases |files|
  {
    if files != [] {
      var rest := files[..|files| - 1];
      PendingMembers(rest, ran);
      assert files == rest + [files[|files| - 1]];
    }
  }

  /** One more directory entry adds at most its own migration name, at the end. */
  lemma MigrationFilesSnoc(listing: seq<string>, entry: string)
    ensures MigrationFiles(listing + [entry]) ==
            MigrationFiles(listing) + (if HasExtension(entry) then [StripExtension(entry)] else [])
  {
    assert (listing + [entry])[..|listing|] == listing;
  }

  /** Discovery distributes over concatenated listings. */
  lemma {:induction false} MigrationFilesAppend(a: seq<string>, b: seq<string>)
    ensures MigrationFiles(a + b) == MigrationFiles(a) + MigrationFiles(b)
    decreases |b|
  {
    if b == [] {
      assert a + b == a;
    } else {
      var b' := b[..|b| - 1];
      assert (a + b)[..|a + b| - 1] == a + b';
      MigrationFilesAppend(a, b');
    }
  }

  /** The directory entry `entry` names the migration `x`. */
  predicate Denotes(entry: string, x: string)
  {
    HasExtension(entry) && StripExtension(entry) == x
  }

  /** A name is discovered exactly when some entry containing the extension strips to it. */
  lemma {:induction false} MigrationFilesMembers(listing: seq<string>, x: string)
    ensures x in MigrationFiles(listing) <==> exists k :: 0 <= k < |listing| && Denotes(listing[k], x)
    decreases |listing|
  {
    if listing != [] {
      var n := |listing| - 1;
      var rest, last := listing[..n], listing[n];
      MigrationFilesMembers(rest, x);
      var found := if HasExtension(last) then [StripExtension(last)] else [];
      assert MigrationFiles(listing) == MigrationFiles(rest) + found;
      assert x in found <==> Denotes(last, x);
      if x in MigrationFiles(listing) {
        if x in MigrationFiles(rest) {
          var k :| 0 <= k < n && Denotes(rest[k], x);
          assert Denotes(listing[k], x);
        } else {
          assert Denotes(listing[n], x);
        }
      }
      if exists k :: 0 <= k < |listing| && Denotes(listing[k], x) {
        var k :| 0 <= k < |listing| && Denotes(listing[k], x);
        if k < n {
          assert Denotes(rest[k], x);
          assert x in MigrationFiles(rest);
        } else {
          assert x in found;
        }
      }
    }
  }

  /** The stored file name of a plain migration name contains the extension and strips back to the name. */
  lemma {:induction false} StripFileName(name: string)
    requires !HasExtension(name)
    ensures HasExtension(FileName(name))
    ensures StripExtension(FileName(name)) == name
    decreases |name|
  {
    var s := FileName(name);
    if name == [] {
      assert s == Extension && s[|Extension|..] == [];
    } else {
      FileNameStart(name);
      assert s[1..] == name[1..] + Extension;
      StripFileName(name[1..]);
      assert s[0] == name[0];
      assert [name[0]] + name[1..] == name;
    }
  }

  /** A non-empty plain migration name's file name does not start with the extension. */
  lemma FileNameStart(name: string)
    requires !HasExtension(name) && name != []
    ensures !StartsWithExtension(FileName(name))
  {
    var s := FileName(name);
    if |name| < |Extension| {
      assert s[|name|] == '.';
    } else {
      assert s[0] == name[0] && s[1] == name[1] && s[2] == name[2] && s[3] == name[3];
    }
  }

  /**
   * The naming convention round-trips: listing the file names of plain
   * migration names discovers exactly those names, in order.
   */
  lemma {:induction false} DiscoverFileNames(names: seq<string>)
    requires forall k :: 0 <= k < |names| ==> !HasExtension(names[k])
    ensures MigrationFiles(FileNames(names)) == names
    decreases |names|
  {
    if names != [] {
      var front, last := names[..|names| - 1], names[|names| - 1];
      assert forall k :: 0 <= k < |front| ==> front[k] == names[k];
      DiscoverFileNames(front);
      StripFileName(last);
      MigrationFilesSnoc(FileNames(front), FileName(last));
      assert front + [last] == names;
    }
  }

  /** The directory's own entries "." and ".." are never migrations. */
  lemma DotEntriesIgnored(listing: seq<string>)
    ensures MigrationFiles([".", ".."] + listing) == MigrationFiles(listing)
  {
    MigrationFilesAppend([".", ".."], listing);
    assert [".", ".."][..1] == ["."];
    assert MigrationFiles(["."]) == MigrationFiles([]) + [];
  }

  /** The extension is matched anywhere, not only as a suffix: a backup entry is discovered too. */
  lemma BackupEntryDiscovered()
    ensures MigrationFiles(["m.php.bak"]) == ["m.bak"]
  {
    var e := "m.php.bak";
    assert e[1..][|Extension|..] == ".bak";
    assert !HasExtension(".bak") by {
      assert |".bak"[1..]| < |Extension|;
    }
    assert StripExtension(e[1..]) == ".bak";
    assert StripExtension(e) == "m.bak";
    var listing: seq<string> := [e];
    assert listing[..0] == [];
    assert MigrationFiles(listing) == MigrationFiles([]) + [StripExtension(e)];
  }

  /** The pending names keep discovery order. */
  lemma {:induction false} PendingSubsequence(files: seq<string>, ran: seq<string>)
    ensures Subsequence(Pending(files, ran), files)
    decreases |files|
  {
    if files != [] {
      var rest, x := files[..|files| - 1], files[|files| - 1];
      var before := Pending(rest, ran);
      assert Subsequence(before, rest) by {
        PendingSubsequence(rest, ran);
      }
      SubsequenceSnoc(before, rest, x);
      assert rest + [x] == files;
      if x in ran {
        assert Pending(files, ran) == before;
      } else {
        assert Pending(files, ran) == before + [x];
      }
    }
  }

  /** With nothing recorded, every discovered name is pending. */
  lemma {:induction false} PendingNothingRan(files: seq<string>)
    ensures Pending(files, []) == files
    decreases |files|
  {
    if files != [] {
      PendingNothingRan(files[..|files| - 1]);
      assert files == files[..|files| - 1] + [files[|files| - 1]];
    }
  }

  /** Distinct discovered names give distinct pending names. */
  lemma PendingDistinct(files: seq<string>, ran: seq<string>)
    requires Distinct(files)
    ensures Distinct(Pending(files, ran))
  {
    PendingSubsequence(files, ran);
    SubsequenceDistinct(Pending(files, ran), files);
  }

  /**
   * The removal is done at the first occurrence: a prefix without any
   * occurrence is kept, the extension after it dropped, and the rest
   * stripped in turn.
   */
  lemma {:induction false} StripFirst(a: string, b: string)
    requires forall i :: 0 <= i < |a| ==> !OccursAt(a + Extension + b, i)
    ensures StripExtension(a + Extension + b) == a + StripExtension(b)
    decreases |a|
  {
    var s := a + Extension + b;
    if a == [] {
      assert s == Extension + b;
      assert StartsWithExtension(s) && s[|Extension|..] == b;
    } else {
      assert !OccursAt(s, 0);
      assert s[0..] == s;
      assert s[1..] == a[1..] + Extension + b;
      forall i | 0 <= i < |a[1..]|
        ensures !OccursAt(a[1..] + Extension + b, i)
      {
        assert s[1..][i..] == s[i + 1..];
        assert !OccursAt(s, i + 1);
      }
      StripFirst(a[1..], b);
      assert [a[0]] + a[1..] == a;
    }
  }
}
