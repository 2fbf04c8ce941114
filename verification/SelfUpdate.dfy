/** Downloading the app's next version over a link that may fail, and trusting only what the manifest describes. */
module SelfUpdate {
  import opened Basics

  const ATTEMPTS: nat := 4
  const MAX_INSTALLER: nat := 128 * 1024 * 1024

  type Bytes = seq<Byte>

  /** A size of zero is a manifest that does not say. */
  datatype Manifest = Manifest(sha: Id, size: nat)

  /** What becomes of one request: no answer or a refusal; a whole-file, partial or not-satisfiable answer. Of a body,
      `came` is what arrives before it ends, or breaks off; `stuck` is a disk that will not be positioned. */
  datatype Reply =
    | NoAnswer
    | Refused
    | Full(came: Bytes, broke: bool, stuck: bool)
    | Partial(came: Bytes, broke: bool, stuck: bool)
    | Unsatisfiable

  /** One attempt's effect on the file, with how many octets it counts, whether it started the file again, and whether
      it failed. */
  datatype Fetch = Fetch(file: Bytes, n: nat, restart: bool, failed: bool)

  function FetchInto(file: Bytes, have: nat, r: Reply): Fetch {
    match r
    case NoAnswer => Fetch(file, 0, false, true)
    case Refused => Fetch(file, 0, false, true)
    case Unsatisfiable => Fetch(file, 0, false, false)
    case Full(came, broke, stuck) =>
      var restart := have > 0;
      if stuck then Fetch(file, 0, restart, true)
      else Fetch(if restart then came else file + came, |came|, restart, broke)
    case Partial(came, broke, stuck) =>
      if stuck then Fetch(file, 0, false, true) else Fetch(file + came, |came|, false, broke)
  }

  /** The server's answers: to the k-th request of a download, asking for what comes after `have` octets. */
  type Server = (nat, nat) -> Reply

  /** Where a download stands: the partial file, the octets counted, and whether the last attempt failed. */
  datatype Standing = Standing(file: Bytes, have: nat, failed: bool, attempts: nat)

  function Counted(f: Fetch, have: nat): nat {
    (if f.restart then 0 else have) + f.n
  }

  /** Everything arrived; an error on the tail of a connection is no longer of interest. */
  predicate AllArrived(m: Manifest, counted: nat) {
    m.size != 0 && counted >= m.size
  }

  /** Another attempt is made after one that failed, brought something or was the first, and did not bring all. */
  predicate GoesOn(m: Manifest, f: Fetch, counted: nat, k: nat) {
    f.failed && !(f.n == 0 && k > 1) && !AllArrived(m, counted) && k < ATTEMPTS
  }

  /** The attempts from the `k`-th on. */
  function Fetching(m: Manifest, server: Server, k: nat, file: Bytes, have: nat): Standing
    requires 1 <= k <= ATTEMPTS
    decreases ATTEMPTS - k
  {
    var f := FetchInto(file, have, server(k, have));
    var counted := Counted(f, have);
    if GoesOn(m, f, counted, k) then Fetching(m, server, k + 1, f.file, counted)
    else Standing(f.file, counted, f.failed && ((f.n == 0 && k > 1) || !AllArrived(m, counted)), k)
  }

  predicate Described(m: Manifest, digest: Bytes -> Id, file: Bytes) {
    digest(file) == m.sha && (m.size != 0 ==> m.size == |file|)
  }

  /** What the disk answers when the file is put under the name that is run: the old one is taken away first, and a
      failure of that is not looked at. */
  datatype Disk = Disk(removeFails: bool, renameFails: bool)

  function Published(before: Option<Bytes>, file: Bytes, disk: Disk): Option<Bytes> {
    if !disk.renameFails then Some(file) else if disk.removeFails then before else None
  }

  class Updater {
    /** The file under its temporary name, and the one under the name that is run. */
    var partial: Bytes
    var runnable: Option<Bytes>

    constructor ()
      ensures runnable == None
    {
      partial, runnable := [], None;
    }

    method Download(m: Manifest, digest: Bytes -> Id, server: Server, disk: Disk) returns (ok: bool)
      modifies this
      ensures var end := Fetching(m, server, 1, [], 0);
              && partial == end.file
              && var good := !end.failed && Described(m, digest, end.file);
                 && ok == (good && !disk.renameFails)
                 && runnable == if good then Published(old(runnable), end.file, disk) else old(runnable)
    {
      partial := [];
      var failed := FetchAll(m, server);
      if failed {
        return false;
      }
      if digest(partial) != m.sha {
        return false;
      }
      if m.size != 0 && m.size != |partial| {
        return false;
      }
      if !disk.removeFails {
        runnable := None;
      }
      if disk.renameFails {
        return false;
      }
      runnable := Some(partial);
      ok := true;
    }

    method FetchAll(m: Manifest, server: Server) returns (failed: bool)
      modifies this`partial
      ensures var end := Fetching(m, server, 1, old(partial), 0);
              partial == end.file && failed == end.failed
    {
      var have: nat, k: nat, goesOn := 0, 1, true;
      failed := false;
      ghost var end := Fetching(m, server, 1, partial, 0);
      while goesOn
        invariant 1 <= k <= ATTEMPTS
        invariant goesOn ==> Fetching(m, server, k, partial, have) == end
        invariant !goesOn ==> partial == end.file && failed == end.failed
        decreases ATTEMPTS - k, goesOn
      {
        have, failed, goesOn := Attempt(m, server, k, have);
        if goesOn {
          k := k + 1;
        }
      }
    }

    /** One attempt, and whether there is to be another. */
    method Attempt(m: Manifest, server: Server, k: nat, from: nat) returns (have: nat, failed: bool, goesOn: bool)
      requires 1 <= k <= ATTEMPTS
      modifies this`partial
      ensures var end := Fetching(m, server, k, old(partial), from);
              if goesOn then k < ATTEMPTS && Fetching(m, server, k + 1, partial, have) == end
              else partial == end.file && failed == end.failed
    {
      have := from;
      goesOn := false;
      var n, restart;
      n, restart, failed := Fetch1(server(k, have), have);
      if restart {
        have := 0;
      }
      have := have + n;
      if !failed {
        return;
      }
      if n == 0 && k > 1 {
        return;
      }
      if m.size != 0 && have >= m.size {
        failed := false;
        return;
      }
      goesOn := k < ATTEMPTS;
    }

    method Fetch1(r: Reply, have: nat) returns (n: nat, restart: bool, failed: bool)
      modifies this`partial
      ensures Fetch(partial, n, restart, failed) == FetchInto(old(partial), have, r)
    {
      n, restart, failed := 0, false, true;
      match r {
        case NoAnswer =>
        case Refused =>
        case Unsatisfiable =>
          failed := false;
        case Full(came, broke, stuck) =>
          restart := have > 0;
          if stuck {
            return;
          }
          if restart {
            partial := [];
          }
          partial := partial + came;
          n, failed := |came|, broke;
        case Partial(came, broke, stuck) =>
          if stuck {
            return;
          }
          partial := partial + came;
          n, failed := |came|, broke;
      }
    }
  }

  /** A prefix of what is left of the file, whole unless the body broke off; the app reads no more than its ceiling. */
  predicate Body(rest: Bytes, came: Bytes, broke: bool) {
    && came <= rest && |came| <= MAX_INSTALLER
    && (!broke ==> came == rest || |came| == MAX_INSTALLER)
  }

  /** An honest answer about a fixed file: all of it, or what comes after `have` if that was asked for and there is any,
      or that there is none. */
  predicate Honest(whole: Bytes, have: nat, r: Reply) {
    match r
    case NoAnswer => true
    case Refused => true
    case Full(came, broke, _) => Body(whole, came, broke)
    case Partial(came, broke, _) => 0 < have <= |whole| && Body(whole[have..], came, broke)
    case Unsatisfiable => have > 0 && have >= |whole|
  }

  ghost predicate Serves(server: Server, whole: Bytes) {
    forall k, have :: Honest(whole, have, server(k, have))
  }

  /** The partial file and the count, as an attempt begins. */
  predicate Holds(whole: Bytes, file: Bytes, have: nat) {
    have <= |whole| && file == whole[..have]
  }

  /** An attempt leaves the file a prefix of what is served and the count its length, unless it failed with nothing, and
      then only by starting again on a disk that would not be positioned. */
  lemma AttemptKeeps(whole: Bytes, file: Bytes, have: nat, r: Reply)
    requires Honest(whole, have, r) && Holds(whole, file, have)
    ensures var f := FetchInto(file, have, r);
            || Holds(whole, f.file, Counted(f, have))
            || (r.Full? && r.stuck && f.failed && f.n == 0 && f.restart && have > 0)
    ensures !r.Full? ==> file <= FetchInto(file, have, r).file && have <= Counted(FetchInto(file, have, r), have)
  {
    match r {
      case Full(came, _, stuck) =>
        if !stuck { assert file + came == came || have > 0; }
      case Partial(came, _, stuck) =>
        assert whole[..have] + came == whole[..have + |came|];
      case _ =>
    }
  }

  /** What a download that goes on to a further attempt starts it from. */
  ghost predicate Restarts(m: Manifest, server: Server, k: nat, file: Bytes, have: nat, j: nat, file': Bytes,
      have': nat)
    requires 1 <= k <= ATTEMPTS
    decreases ATTEMPTS - k
  {
    if j == k then file' == file && have' == have
    else
      var f := FetchInto(file, have, server(k, have));
      var counted := Counted(f, have);
      && GoesOn(m, f, counted, k)
      && Restarts(m, server, k + 1, f.file, counted, j, file', have')
  }

  /** Every attempt, the first and every retry, begins with a file that is exactly the first `have` octets of what the
      server serves. */
  lemma {:induction false} EveryAttemptBeginsAtAPrefix(
      m: Manifest, server: Server, whole: Bytes, k: nat, file: Bytes, have: nat, j: nat, file': Bytes, have': nat)
    requires 1 <= k <= ATTEMPTS && Serves(server, whole) && Holds(whole, file, have) && (k == 1 ==> have == 0)
    requires Restarts(m, server, k, file, have, j, file', have')
    ensures Holds(whole, file', have') && k <= j <= ATTEMPTS
    decreases ATTEMPTS - k
  {
    if j != k {
      var f := FetchInto(file, have, server(k, have));
      AttemptKeeps(whole, file, have, server(k, have));
      EveryAttemptBeginsAtAPrefix(m, server, whole, k + 1, f.file, Counted(f, have), j, file', have');
    }
  }

  /** A download that ends without a failure has a prefix of the file. */
  lemma {:induction false} EndsAtAPrefix(m: Manifest, server: Server, whole: Bytes, k: nat, file: Bytes, have: nat)
    requires 1 <= k <= ATTEMPTS && Serves(server, whole) && Holds(whole, file, have) && (k == 1 ==> have == 0)
    ensures var end := Fetching(m, server, k, file, have);
            k <= end.attempts <= ATTEMPTS && (!end.failed ==> Holds(whole, end.file, end.have))
    decreases ATTEMPTS - k
  {
    var f := FetchInto(file, have, server(k, have));
    var counted := Counted(f, have);
    AttemptKeeps(whole, file, have, server(k, have));
    if GoesOn(m, f, counted, k) {
      EndsAtAPrefix(m, server, whole, k + 1, f.file, counted);
    }
  }

  /** What is made runnable is always what the manifest describes, whatever the server did; and from a server that
      serves one file, with a manifest that describes it, it is that file and nothing else, within four attempts. */
  lemma OnlyTheDescribedFile(m: Manifest, digest: Bytes -> Id, server: Server, whole: Bytes)
    requires Serves(server, whole) && m.sha == digest(whole)
    requires forall a, b :: digest(a) == digest(b) ==> a == b
    ensures var end := Fetching(m, server, 1, [], 0);
            && end.attempts <= ATTEMPTS
            && (!end.failed && Described(m, digest, end.file) ==> end.file == whole)
            && (!end.failed && (m.size == 0 || m.size == |whole|) ==>
                  (Described(m, digest, end.file) <==> end.have == |whole|))
            && (!end.failed && Described(m, digest, end.file) ==> m.size == 0 || m.size == |whole|)
  {
    EndsAtAPrefix(m, server, whole, 1, [], 0);
    var end := Fetching(m, server, 1, [], 0);
    if !end.failed && end.have == |whole| {
      assert end.file == whole;
    }
  }

  /** The file that is run is lost, with nothing in its place, exactly when the new one was fetched and found good, the
      old one was taken away, and the new one could not be given its name. */
  lemma LostExactly(m: Manifest, digest: Bytes -> Id, server: Server, disk: Disk, before: Bytes)
    ensures var end := Fetching(m, server, 1, [], 0);
            var good := !end.failed && Described(m, digest, end.file);
            var after := if good then Published(Some(before), end.file, disk) else Some(before);
            && (after == None <==> good && !disk.removeFails && disk.renameFails)
            && (after.Some? ==> after.value == before || Described(m, digest, after.value))
  {
  }

  /** An attempt that breaks off but brings something. */
  predicate Advances(r: Reply) {
    (r.Full? || r.Partial?) && r.broke && !r.stuck && r.came != []
  }

  /** An attempt that runs to its end. */
  predicate Completes(r: Reply) {
    r.Unsatisfiable? || ((r.Full? || r.Partial?) && !r.broke && !r.stuck)
  }

  /** An attempt after the first that fails and brings nothing is the last one, and the download has failed. */
  lemma FruitlessAttemptEndsIt(m: Manifest, server: Server, k: nat, file: Bytes, have: nat)
    requires 1 < k <= ATTEMPTS && FetchInto(file, have, server(k, have)).failed
    requires FetchInto(file, have, server(k, have)).n == 0
    ensures var end := Fetching(m, server, k, file, have);
            end.attempts == k && end.failed
  {
  }

  /** A link that brings something every time but the first and, within four attempts, once runs to the end is enough:
      what was already fetched is not lost, and the download succeeds. */
  lemma {:induction false} ResumingSucceeds(m: Manifest, digest: Bytes -> Id, server: Server, whole: Bytes,
                                            k: nat, last: nat, file: Bytes, have: nat)
    requires 1 <= k <= last <= ATTEMPTS && Serves(server, whole) && Holds(whole, file, have) && (k == 1 ==> have == 0)
    requires |whole| < MAX_INSTALLER && m.sha == digest(whole) && (m.size == 0 || m.size == |whole|)
    requires forall j: nat, h: nat ::
               k <= j < last && h <= |whole| ==> j == 1 || Advances(server(j, h)) || Completes(server(j, h))
    requires forall h: nat :: h <= |whole| ==> Completes(server(last, h))
    ensures var end := Fetching(m, server, k, file, have);
            !end.failed && end.file == whole && Described(m, digest, end.file)
    decreases last - k
  {
    var r := server(k, have);
    var f := FetchInto(file, have, r);
    AttemptKeeps(whole, file, have, r);
    assert Honest(whole, have, r) && (1 < k < last ==> Advances(r) || Completes(r)) && (k == last ==> Completes(r));
    if Completes(r) {
      CompletingCompletes(whole, file, have, r);
    } else if AllArrived(m, Counted(f, have)) {
      assert f.file == whole;
    } else {
      ResumingSucceeds(m, digest, server, whole, k + 1, last, f.file, Counted(f, have));
    }
  }

  lemma CompletingCompletes(whole: Bytes, file: Bytes, have: nat, r: Reply)
    requires Honest(whole, have, r) && Holds(whole, file, have) && Completes(r) && |whole| < MAX_INSTALLER
    ensures FetchInto(file, have, r).file == whole && !FetchInto(file, have, r).failed
  {
    if r.Partial? {
      assert whole[..have] + whole[have..] == whole;
    }
  }
}
