/**
  Which keys the deletions accept (jobs/retention.py), by the parts they are put together
  from, and that they accept what the rest of the system generates (jobs/services.py,
  jobs/remote_workers.py, jobs/staging.py).
 */
module GeneratedKeys {
  import opened Wrappers
  import opened Retention
  import opened RetentionSafety
  import Decimal

  ghost predicate IsPlain(key: Key) {
    forall part | part in key :: part !in ["", ".", ".."]
  }

  /** The directory of an attempt by its number, or of an allocation by 32 hexadecimal digits. */
  ghost predicate IsDirectory(part: string) {
    || (exists digits: string :: IsNumber(digits) && part == "attempt-" + digits)
    || (exists name: string :: IsHexName(name) && part == "allocation-" + name)
  }

  ghost predicate IsNumber(s: string) { s != "" && forall c | c in s :: '0' <= c <= '9' }

  ghost predicate IsHexName(s: string) { |s| == 32 && forall c | c in s :: '0' <= c <= '9' || 'a' <= c <= 'f' }

  /** The key ends in the job's directory and a file, perhaps with one directory between. */
  ghost predicate EndsInJob(key: Key, job: Id, file: string) {
    exists front: Key :: EndsInJobAfter(front, key, job, file)
  }

  ghost predicate EndsInJobAfter(front: Key, key: Key, job: Id, file: string) {
    || key == front + ["jobs", IdText(job), file]
    || (exists part: string :: IsDirectory(part) && key == front + ["jobs", IdText(job), part, file])
  }

  lemma DirectoryIff(part: string)
    ensures IsDirectory(part) <==> IsAttemptDirectory(part) || IsAllocationDirectory(part)
  {
    if IsAttemptDirectory(part) {
      assert part == "attempt-" + part[8..] && IsNumber(part[8..]);
    }
    if IsAllocationDirectory(part) {
      assert part == "allocation-" + part[11..] && IsHexName(part[11..]);
    }
    if digits: string :| IsNumber(digits) && part == "attempt-" + digits {
      assert part[8..] == digits;
    }
    if name: string :| IsHexName(name) && part == "allocation-" + name {
      assert part[11..] == name;
    }
  }

  /** A number is no directory's name. */
  lemma NumbersAreNotDirectories(id: Id)
    ensures !IsAttemptDirectory(IdText(id)) && !IsAllocationDirectory(IdText(id))
  {
    Decimal.ReadOfPrint(id);
    var text := IdText(id);
    assert text[0] in text;
  }

  lemma {:induction false} FileNameIs(name: string)
    ensures |FileName(name)| == |name|
    ensures forall i | 0 <= i < |name| :: FileName(name)[i] == if name[i] == '/' then '-' else name[i]
  {
    if name != "" {
      FileNameIs(name[1..]);
    }
  }

  lemma TailOf(front: Key, job: Id, part: string, file: string)
    ensures JobTail(front + ["jobs", IdText(job), file]) == Some((IdText(job), file))
    ensures IsDirectory(part) ==> JobTail(front + ["jobs", IdText(job), part, file]) == Some((IdText(job), file))
  {
    NumbersAreNotDirectories(job);
    DirectoryIff(part);
    hide IsAttemptDirectory, IsAllocationDirectory, IsDirectory, IdText;
  }

  lemma TailEnds(key: Key, job: Id)
    requires JobTail(key).Some? && JobTail(key).value.0 == IdText(job)
    ensures EndsInJob(key, job, JobTail(key).value.1)
  {
    hide IsAttemptDirectory, IsAllocationDirectory, IsDirectory, IdText;
    var n, file := |key|, JobTail(key).value.1;
    DirectoryIff(key[n - 2]);
    if n >= 4 && IsDirectory(key[n - 2]) {
      assert key == key[..n - 4] + ["jobs", IdText(job), key[n - 2], file];
      assert EndsInJobAfter(key[..n - 4], key, job, file);
    } else {
      assert key == key[..n - 3] + ["jobs", IdText(job), file];
      assert EndsInJobAfter(key[..n - 3], key, job, file);
    }
  }

  /**
    The deletions of a job accept a key exactly when it is plain and ends in the job's layout,
    under the name if known.
   */
  lemma JobKeyIsDeletableIff(key: Key, job: Id, name: Option<string>)
    ensures JobKeyIsDeletable(key, job, name) <==>
            IsPlain(key) && exists file: string ::
              EndsInJob(key, job, file) && (name.Some? ==> file == FileName(name.value))
  {
    hide IdText, FileName;
    assert key != [] ==> (PlainSegments(key) <==> IsPlain(key));
    if JobTail(key).Some? && JobTail(key).value.0 == IdText(job) {
      TailEnds(key, job);
    }
    forall file: string | EndsInJob(key, job, file) ensures key != [] && JobTail(key) == Some((IdText(job), file)) {
      EndsHaveTail(key, job, file);
    }
  }

  lemma EndsHaveTail(key: Key, job: Id, file: string)
    requires EndsInJob(key, job, file)
    ensures key != [] && JobTail(key) == Some((IdText(job), file))
  {
    hide JobTail, IsDirectory, IdText;
    var front: Key :| EndsInJobAfter(front, key, job, file);
    TailOf(front, job, "", file);
    if part: string :| IsDirectory(part) && key == front + ["jobs", IdText(job), part, file] {
      TailOf(front, job, part, file);
    }
  }

  /** The deletion of an upload accepts a key exactly when it is plain and ends in the upload's directory and file. */
  lemma UploadKeyIsDeletableIff(key: Key, id: Id, filename: string)
    ensures StagedKeyIsDeletable(key, id, filename) <==>
            IsPlain(key) && exists front: Key :: key == front + ["staged-inputs", IdText(id), FileName(filename)]
  {
    hide IdText, FileName;
    var n := |key|;
    assert n >= 3 ==> key == key[..n - 3] + key[n - 3..];
  }

  /** A key that the deletions of two jobs accept does not exist. */
  lemma OneJobPerKey(key: Key, a: Id, b: Id)
    requires JobKeyIsDeletable(key, a, None) && JobKeyIsDeletable(key, b, None)
    ensures a == b
  {
    IdTextIsInjective(a, b);
  }

  lemma PlainDirectoryFile(base: Key, job: Id, part: string, name: string)
    requires IsPlain(base + [FileName(name)])
    ensures JobKeyIsDeletable(base + ["jobs", IdText(job), FileName(name)], job, Some(name))
    ensures IsDirectory(part) ==> JobKeyIsDeletable(base + ["jobs", IdText(job), part, FileName(name)], job, Some(name))
  {
    TailOf(base, job, part, FileName(name));
    PlainNames(job, part);
    hide IdText, FileName, IsDirectory, JobTail, IsAttemptDirectory, IsAllocationDirectory;
    PlainAround(base, ["jobs", IdText(job)], FileName(name));
    if IsDirectory(part) {
      PlainAround(base, ["jobs", IdText(job), part], FileName(name));
      assert base + ["jobs", IdText(job), part] + [FileName(name)] ==
        base + ["jobs", IdText(job), part, FileName(name)];
    }
    assert base + ["jobs", IdText(job)] + [FileName(name)] == base + ["jobs", IdText(job), FileName(name)];
  }

  lemma PlainAround(base: Key, middle: Key, file: string)
    requires IsPlain(base + [file]) && IsPlain(middle)
    ensures PlainSegments(base + middle + [file]) && (middle != [] ==> PlainSegments(base + middle))
  {
    forall part | part in base + middle + [file] ensures part !in ["", ".", ".."] {
      assert part in base + [file] || part in middle;
    }
    assert forall part | part in base + middle :: part in base + middle + [file];
  }

  lemma PlainNames(id: Id, part: string)
    ensures IsPlain(["jobs", IdText(id)]) && IsPlain(["staged-inputs", IdText(id)])
    ensures IsDirectory(part) ==> IsPlain(["jobs", IdText(id), part])
  {
    Decimal.ReadOfPrint(id);
    assert IdText(id)[0] in IdText(id);
  }

  lemma AttemptIsDirectory(attempt: nat)
    ensures IsDirectory(AttemptDirectory(attempt))
  {
    Decimal.ReadOfPrint(attempt);
    assert IsNumber(Decimal.Print(attempt));
  }

  /** What the system generates below a plain base, for a plain file name, its deletions accept. */
  lemma GeneratedKeysAreDeletable(base: Key, job: Id, attempt: nat, part: string, name: string, upload: Id)
    requires IsPlain(base + [FileName(name)])
    ensures JobKeyIsDeletable(JobRoot(base, job) + [FileName(name)], job, Some(name))
    ensures JobKeyIsDeletable(AttemptRoot(base, job, attempt) + [FileName(name)], job, Some(name))
    ensures IsAllocationDirectory(part) ==>
        JobKeyIsDeletable(JobRoot(base, job) + [part, FileName(name)], job, Some(name))
    ensures AttemptPrefixIsDeletable(AttemptRoot(base, job, attempt), job, attempt)
    ensures StagedKeyIsDeletable(UploadKey(base, upload, name), upload, name)
  {
    var file, directory := FileName(name), AttemptDirectory(attempt);
    AttemptIsDirectory(attempt);
    DirectoryIff(part);
    PlainNames(job, directory);
    PlainNames(upload, directory);
    hide IdText, FileName, IsAttemptDirectory, IsAllocationDirectory, IsDirectory, JobKeyIsDeletable, AttemptDirectory,
      IsPlain, PlainSegments;
    PlainDirectoryFile(base, job, directory, name);
    PlainDirectoryFile(base, job, part, name);
    PlainAround(base, ["jobs", IdText(job), directory], file);
    PlainAround(base, ["staged-inputs", IdText(upload)], file);
    assert JobRoot(base, job) + [file] == base + ["jobs", IdText(job), file];
    assert AttemptRoot(base, job, attempt) + [file] == base + ["jobs", IdText(job), directory, file];
    assert JobRoot(base, job) + [part, file] == base + ["jobs", IdText(job), part, file];
    assert AttemptRoot(base, job, attempt) == base + ["jobs", IdText(job), directory];
    assert UploadKey(base, upload, name) == base + ["staged-inputs", IdText(upload)] + [file];
  }

  /**
    Cleaning a prefix that may be cleaned removes the objects whose keys go on after it and
    that no artifact or upload row names, and no others.
   */
  lemma CleaningTakes(db: Db, pk: Id, key: Key)
    requires pk in db.prefixes && key in db.objects && PrefixIsCleanable(db, db.prefixes[pk])
    requires db.prefixes[pk].job in db.jobs ==> db.jobs[db.prefixes[pk].job].terminal
    ensures pk !in CleanAttemptPrefix(db, pk, None).prefixes
    ensures key !in CleanAttemptPrefix(db, pk, None).objects <==>
            && (exists rest: Key :: rest != [] && key == db.prefixes[pk].prefix + rest)
            && (forall a | a in db.artifacts :: db.artifacts[a].key != key)
            && (forall u | u in db.staged :: db.staged[u].key != key)
  {
    hide PrefixIsCleanable;
    var prefix := db.prefixes[pk].prefix;
    if IsBelow(key, prefix) {
      assert key == prefix + key[|prefix|..];
    }
  }

  /** A prefix may be cleaned if it is the attempt's and every key that goes on after it is accepted for its job. */
  lemma CleanableIff(db: Db, record: PrefixRow)
    ensures PrefixIsCleanable(db, record) <==>
            && IsPlain(record.prefix)
            && (exists front: Key ::
              record.prefix == front + ["jobs", IdText(record.job), AttemptDirectory(record.attempt)])
            && forall rest: Key | rest != [] && record.prefix + rest in db.objects ::
                 JobKeyIsDeletable(record.prefix + rest, record.job, None)
  {
    hide IdText, AttemptDirectory, JobKeyIsDeletable;
    var prefix, n := record.prefix, |record.prefix|;
    assert n >= 3 ==> prefix == prefix[..n - 3] + prefix[n - 3..];
    forall key | key in KeysBelow(db, prefix) ensures key == prefix + key[n..] && key[n..] != [] {
    }
    forall rest: Key | rest != [] && prefix + rest in db.objects ensures prefix + rest in KeysBelow(db, prefix) {
    }
  }
}
