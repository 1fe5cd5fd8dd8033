/** The authenticated ignore list on the card: two files in turn. */
module IgnoreBackup {
  // The files are modelled byte by byte. mac stands for HMAC-SHA256 under the board's key; keyed says whether that key
  // is set.

  import opened Core
  import opened StateRecords

  const CAPACITY: nat := 64
  const ENTRY: nat := 9
  const HEADER: nat := 16
  const SIGNED: nat := HEADER + CAPACITY * ENTRY
  const MAC: nat := 32
  const IMAGE: nat := SIGNED + MAC
  const WORD: nat := 0x1_0000_0000_0000_0000
  const GENERATION_MAX: nat := WORD - 1

  /** "HNDIGN02" */
  const MAGIC: seq<Byte> := [72, 78, 68, 73, 71, 78, 48, 50]

  type Bytes = seq<Byte>
  type Mac = Bytes -> Bytes

  datatype Backup = Backup(list: seq<Ignored>, generation: nat) {
    predicate Valid() {
      |list| == CAPACITY && ValidIgnores(list) && Words(list) && 0 < generation < WORD
    }
  }

  predicate Words(list: seq<Ignored>) {
    forall i | 0 <= i < |list| :: list[i].hash < WORD
  }

  // ---- The format ----

  function Little(n: nat, k: nat): (b: Bytes)
    ensures |b| == k
  {
    if k == 0 then [] else [n % 256] + Little(n / 256, k - 1)
  }

  function Number(b: Bytes): nat {
    if b == [] then 0 else b[0] + 256 * Number(b[1..])
  }

  function Entry(e: Ignored): (b: Bytes)
    requires e.category < 256
    ensures |b| == ENTRY
  {
    Little(e.hash, 8) + [e.category]
  }

  predicate Categories(list: seq<Ignored>) {
    forall i | 0 <= i < |list| :: list[i].category < 256
  }

  function Entries(list: seq<Ignored>): (b: Bytes)
    requires Categories(list)
    ensures |b| == ENTRY * |list|
  {
    if list == [] then [] else Entries(list[..|list| - 1]) + Entry(list[|list| - 1])
  }

  function Signed(b: Backup): (s: Bytes)
    requires Categories(b.list)
    ensures |s| == HEADER + ENTRY * |b.list|
  {
    MAGIC + Little(b.generation, 8) + Entries(b.list)
  }

  function Image(b: Backup, mac: Mac): Bytes
    requires Categories(b.list)
  {
    Signed(b) + mac(Signed(b))
  }

  function ReadEntry(b: Bytes): Ignored
    requires |b| == ENTRY
  {
    Ignored(Number(b[..8]), b[8])
  }

  function ReadEntries(b: Bytes, n: nat): (list: seq<Ignored>)
    requires |b| == ENTRY * n
    ensures |list| == n
  {
    if n == 0 then [] else ReadEntries(b[..ENTRY * (n - 1)], n - 1) + [ReadEntry(b[ENTRY * (n - 1)..])]
  }

  function Decode(bytes: Bytes, mac: Mac, keyed: bool): Option<Backup>
    requires |bytes| == IMAGE
  {
    if !keyed || bytes[..8] != MAGIC || mac(bytes[..SIGNED]) != bytes[SIGNED..] then None
    else
      var b := Backup(ReadEntries(bytes[HEADER..SIGNED], CAPACITY), Number(bytes[8..HEADER]));
      if b.generation == 0 || !ValidIgnores(b.list) then None else Some(b)
  }

  // ---- Numbers and entries read back ----

  lemma {:induction false} NumberBounded(b: Bytes)
    ensures Number(b) < Power256(|b|)
  {
    if b != [] {
      NumberBounded(b[1..]);
    }
  }

  function Power256(k: nat): nat {
    if k == 0 then 1 else 256 * Power256(k - 1)
  }

  lemma {:induction false} LittleNumber(n: nat, k: nat)
    requires n < Power256(k)
    ensures Number(Little(n, k)) == n
  {
    if k > 0 {
      LittleNumber(n / 256, k - 1);
      assert Little(n, k)[1..] == Little(n / 256, k - 1);
    }
  }

  lemma {:induction false} NumberLittle(b: Bytes)
    ensures Little(Number(b), |b|) == b
  {
    if b != [] {
      NumberLittle(b[1..]);
      assert Number(b) % 256 == b[0] && Number(b) / 256 == Number(b[1..]);
      assert b == [b[0]] + b[1..];
    }
  }

  /** The least significant byte comes first. */
  lemma {:induction false} LittleBytes(n: nat, k: nat, i: nat)
    requires i < k
    ensures Power256(i) > 0 && Little(n, k)[i] == n / Power256(i) % 256
  {
    if i > 0 {
      LittleBytes(n / 256, k - 1, i - 1);
      DivTwice(n, Power256(i - 1));
    }
  }

  lemma DivTwice(n: nat, p: nat)
    requires p > 0
    ensures n / 256 / p == n / (256 * p)
  {
    var q, r := n / (256 * p), n % (256 * p);
    assert n == q * (256 * p) + r;
    var a, b := r / 256, r % 256;
    assert n == 256 * (q * p + a) + b;
    assert n / 256 == q * p + a;
    assert 256 * a <= r < 256 * p;
    QuotientIs(q * p + a, p, q, a);
  }

  lemma QuotientIs(n: int, p: int, q: int, a: int)
    requires p > 0 && 0 <= a < p && n == q * p + a
    ensures n / p == q
  {
    assert (n / p - q) * p == a - n % p;
    SmallMultiple(n / p - q, p);
  }

  lemma SmallMultiple(x: int, p: int)
    requires p > 0 && -p < x * p < p
    ensures x == 0
  {
  }

  lemma WordSize()
    ensures Power256(8) == WORD
  {
    assert Power256(4) == 0x1_0000_0000;
  }

  lemma EntryReadsBack(e: Ignored)
    requires e.hash < WORD && e.category < 256
    ensures ReadEntry(Entry(e)) == e
  {
    WordSize();
    LittleNumber(e.hash, 8);
    assert Entry(e)[..8] == Little(e.hash, 8);
  }

  lemma Halves<T>(a: seq<T>, b: seq<T>)
    ensures (a + b)[..|a|] == a && (a + b)[|a|..] == b
  {
  }

  lemma Whole<T>(s: seq<T>, n: nat)
    requires n <= |s|
    ensures s == s[..n] + s[n..]
  {
  }

  lemma {:induction false} EntriesReadBack(list: seq<Ignored>)
    requires Words(list) && Categories(list)
    ensures ReadEntries(Entries(list), |list|) == list
  {
    hide Entry, ReadEntry, Number, Little;
    if list != [] {
      var n := |list| - 1;
      EntriesReadBack(list[..n]);
      EntryReadsBack(list[n]);
      Halves(Entries(list[..n]), Entry(list[n]));
      Whole(list, n);
    }
  }

  lemma EntryWrites(b: Bytes)
    requires |b| == ENTRY
    ensures var e := ReadEntry(b); e.hash < WORD && e.category < 256 && Entry(e) == b
  {
    WordSize();
    NumberBounded(b[..8]);
    NumberLittle(b[..8]);
    Whole(b, 8);
  }

  lemma {:induction false} ReadEntriesWrite(b: Bytes, n: nat)
    requires |b| == ENTRY * n
    ensures Words(ReadEntries(b, n)) && Categories(ReadEntries(b, n)) && Entries(ReadEntries(b, n)) == b
  {
    hide Entry, ReadEntry, Number, Little;
    if n > 0 {
      var head, last := b[..ENTRY * (n - 1)], b[ENTRY * (n - 1)..];
      ReadEntriesWrite(head, n - 1);
      EntryWrites(last);
      Halves(ReadEntries(head, n - 1), [ReadEntry(last)]);
      Whole(b, ENTRY * (n - 1));
    }
  }

  // ---- The round trip, both ways ----

  lemma ImageParts(b: Backup, mac: Mac)
    requires b.Valid() && |mac(Signed(b))| == MAC
    ensures var x := Image(b, mac);
            |x| == IMAGE && x[..SIGNED] == Signed(b) && x[SIGNED..] == mac(Signed(b))
            && x[..8] == MAGIC && x[8..HEADER] == Little(b.generation, 8) && x[HEADER..SIGNED] == Entries(b.list)
  {
  }

  /** Decoding an encoded valid list gives it back. */
  lemma DecodesImage(b: Backup, mac: Mac)
    requires b.Valid() && |mac(Signed(b))| == MAC
    ensures |Image(b, mac)| == IMAGE && Decode(Image(b, mac), mac, true) == Some(b)
  {
    hide Little, Entries, Number, ReadEntries, Image, Signed;
    ImageParts(b, mac);
    WordSize();
    LittleNumber(b.generation, 8);
    EntriesReadBack(b.list);
  }

  /** Only the image of a backup decodes to it: every byte is accounted for. */
  lemma OnlyImageDecodes(bytes: Bytes, mac: Mac, keyed: bool)
    requires |bytes| == IMAGE && Decode(bytes, mac, keyed).Some?
    ensures var b := Decode(bytes, mac, keyed).value; keyed && b.Valid() && bytes == Image(b, mac)
  {
    hide Little, Entries, Number, ReadEntries;
    var b := Decode(bytes, mac, keyed).value;
    ReadEntriesWrite(bytes[HEADER..SIGNED], CAPACITY);
    WordSize();
    NumberBounded(bytes[8..HEADER]);
    NumberLittle(bytes[8..HEADER]);
    Pieces(bytes);
    assert Signed(b) == bytes[..SIGNED];
  }

  lemma Pieces(bytes: Bytes)
    requires |bytes| == IMAGE
    ensures bytes[..SIGNED] == bytes[..8] + bytes[8..HEADER] + bytes[HEADER..SIGNED]
    ensures bytes == bytes[..SIGNED] + bytes[SIGNED..]
  {
  }

  // ---- The two files ----

  /** None: there is no such file. */
  type File = Option<Bytes>

  datatype Read = Missing | Invalid | Error | Good(b: Backup)

  /** The best of the slots read so far; best is meaningful when slot >= 0. */
  datatype Found = Found(slot: int, best: Backup, existing: bool, error: bool)

  const NOTHING: Found := Found(-1, Backup([], 0), false, false)

  function ReadSlot(f: File, fault: bool, mac: Mac, keyed: bool): Read {
    if fault then Error
    else match f
      case None => Missing
      case Some(bytes) =>
        if |bytes| != IMAGE then Invalid
        else match Decode(bytes, mac, keyed)
          case None => Invalid
          case Some(b) => Good(b)
  }

  function Better(found: Found, slot: nat, r: Read): Found {
    var seen := found.(existing := found.existing || r != Missing, error := found.error || r == Error);
    if r.Good? && r.b.generation > found.best.generation then seen.(slot := slot, best := r.b) else seen
  }

  function Latest(files: seq<File>, faults: seq<bool>, mac: Mac, keyed: bool, n: nat): (f: Found)
    requires |files| == |faults| == 2 && n <= 2
  {
    if n == 0 then NOTHING
    else Better(Latest(files, faults, mac, keyed, n - 1), n - 1, ReadSlot(files[n - 1], faults[n - 1], mac, keyed))
  }

  const CALM: seq<bool> := [false, false]

  /** What read_ignore_backup finds when the card answers. */
  function Newest(files: seq<File>, mac: Mac, keyed: bool): Option<Backup>
    requires |files| == 2
  {
    var found := Latest(files, CALM, mac, keyed, 2);
    if found.slot < 0 then None else Some(found.best)
  }

  function Generation(newest: Option<Backup>): nat {
    if newest.None? then 0 else newest.value.generation
  }

  /** How the write ends: before the file is opened, with some residue in it, or complete (ok: acknowledged). */
  datatype Write = NotOpened | Stopped(residue: Bytes) | Complete(ok: bool)

  datatype Result = Failed | Unchanged | Written

  function Target(slot: int): nat {
    if slot == 0 then 1 else 0
  }

  /** The backup gets as far as writing. */
  predicate Writes(found: Found, list: seq<Ignored>, keyed: bool) {
    && keyed && ValidIgnores(list) && !found.error && !(found.slot < 0 && found.existing)
    && found.best.generation != GENERATION_MAX && !(found.slot >= 0 && found.best.list == list)
  }

  function BackupStep(files: seq<File>, faults: seq<bool>, list: seq<Ignored>, mac: Mac, keyed: bool, w: Write)
      : (r: (seq<File>, Result))
    requires |files| == |faults| == 2
    ensures |r.0| == 2
  {
    if !keyed || !ValidIgnores(list) then (files, Failed)
    else
      var found := Latest(files, faults, mac, keyed, 2);
      if found.error || (found.slot < 0 && found.existing) || found.best.generation == GENERATION_MAX then
          (files, Failed)
      else if found.slot >= 0 && found.best.list == list then (files, Unchanged)
      else
        var image := Image(Backup(list, found.best.generation + 1), mac);
        match w
        case NotOpened => (files, Failed)
        case Stopped(residue) => (files[Target(found.slot) := Some(residue)], Failed)
        case Complete(ok) => (files[Target(found.slot) := Some(image)], if ok then Written else Failed)
  }

  /** The list as the device holds it. */
  predicate Proper(list: seq<Ignored>) {
    |list| == CAPACITY && Words(list) && Categories(list)
  }

  // ---- One backup is atomic ----

  /** What the key guarantees: a file that is left unfinished does not authenticate, unless it is the image. */
  ghost predicate Unforged(w: Write, image: Bytes, mac: Mac, keyed: bool) {
    w.Stopped? && |w.residue| == IMAGE && w.residue != image ==> Decode(w.residue, mac, keyed).None?
  }

  ghost predicate Authentic(mac: Mac) {
    forall s: Bytes :: |mac(s)| == MAC
  }

  /** Slot by slot: what the newest of two files is. */
  lemma LatestIs(files: seq<File>, faults: seq<bool>, mac: Mac, keyed: bool)
    requires |files| == |faults| == 2
    ensures var r0, r1 := ReadSlot(files[0], faults[0], mac, keyed), ReadSlot(files[1], faults[1], mac, keyed);
            Latest(files, faults, mac, keyed, 2) == Better(Better(NOTHING, 0, r0), 1, r1)
  {
    assert Latest(files, faults, mac, keyed, 1) == Better(NOTHING, 0, ReadSlot(files[0], faults[0], mac, keyed));
  }

  lemma ReadImage(b: Backup, mac: Mac)
    requires b.Valid() && Authentic(mac)
    ensures ReadSlot(Some(Image(b, mac)), false, mac, true) == Good(b)
  {
    DecodesImage(b, mac);
    hide Image, Decode, Signed;
  }

  lemma ReadGood(f: File, fault: bool, mac: Mac, keyed: bool)
    requires ReadSlot(f, fault, mac, keyed).Good?
    ensures !fault && keyed && ReadSlot(f, fault, mac, keyed).b.Valid()
  {
    OnlyImageDecodes(f.value, mac, keyed);
  }

  /** A reading without errors is what a calm card gives. */
  lemma NoErrorIsCalm(files: seq<File>, faults: seq<bool>, mac: Mac, keyed: bool)
    requires |files| == |faults| == 2 && !Latest(files, faults, mac, keyed, 2).error
    ensures Latest(files, faults, mac, keyed, 2) == Latest(files, CALM, mac, keyed, 2)
  {
    hide Decode;
    LatestIs(files, faults, mac, keyed);
    LatestIs(files, CALM, mac, keyed);
  }

  /** What the file that is not the newest holds afterwards decides what is newest then. */
  lemma Replaced(files: seq<File>, x: Bytes, mac: Mac, keyed: bool)
    requires |files| == 2
    requires var found := Latest(files, CALM, mac, keyed, 2); found.slot >= 0 || !found.existing
    ensures var found := Latest(files, CALM, mac, keyed, 2);
            var after := files[Target(found.slot) := Some(x)];
            match ReadSlot(Some(x), false, mac, keyed)
            case Good(b) => b.generation > found.best.generation ==> Newest(after, mac, keyed) == Some(b)
            case _ => Newest(after, mac, keyed) == Newest(files, mac, keyed)
  {
    hide ReadSlot, Decode, Latest;
    var found := Latest(files, CALM, mac, keyed, 2);
    var after := files[Target(found.slot) := Some(x)];
    LatestIs(files, CALM, mac, keyed);
    LatestIs(after, CALM, mac, keyed);
    ReadBytes(x, mac, keyed);
  }

  lemma ReadBytes(x: Bytes, mac: Mac, keyed: bool)
    ensures var r := ReadSlot(Some(x), false, mac, keyed); r.Good? || r.Invalid?
    ensures ReadSlot(None, false, mac, keyed) == Missing
  {
    hide Decode;
  }

  /** The image that a backup with this finding would write. */
  lemma WrittenReads(files: seq<File>, list: seq<Ignored>, mac: Mac)
    requires |files| == 2 && Proper(list) && ValidIgnores(list) && Authentic(mac)
    requires Latest(files, CALM, mac, true, 2).best.generation < GENERATION_MAX
    ensures var b := Backup(list, Latest(files, CALM, mac, true, 2).best.generation + 1);
            ReadSlot(Some(Image(b, mac)), false, mac, true) == Good(b)
  {
    hide Latest, Image, ReadSlot;
    ReadImage(Backup(list, Latest(files, CALM, mac, true, 2).best.generation + 1), mac);
  }

  lemma LatestGeneration(files: seq<File>, mac: Mac, keyed: bool)
    requires |files| == 2
    ensures var found := Latest(files, CALM, mac, keyed, 2);
            && Generation(Newest(files, mac, keyed)) == found.best.generation <= GENERATION_MAX && -1 <= found.slot < 2
            && (found.slot >= 0 <==> Newest(files, mac, keyed).Some?) && (found.slot < 0 ==> found.best.generation == 0)
  {
    hide ReadSlot, Latest;
    LatestIs(files, CALM, mac, keyed);
    forall i | 0 <= i < 2 && ReadSlot(files[i], false, mac, keyed).Good?
      ensures ReadSlot(files[i], false, mac, keyed).b.generation < WORD
    {
      ReadGood(files[i], false, mac, keyed);
    }
  }

  /**
   * One backup: the newest valid file is never opened for writing, and a later read finds the old pair or
   * the new one with the next generation.
   */
  lemma BackupAtomic(files: seq<File>, faults: seq<bool>, list: seq<Ignored>, mac: Mac, keyed: bool, w: Write)
    requires |files| == |faults| == 2 && Proper(list) && Authentic(mac)
    requires var g := Generation(Newest(files, mac, keyed)) + 1; Unforged(w, Image(Backup(list, g), mac), mac, keyed)
    ensures var (after, result) := BackupStep(files, faults, list, mac, keyed, w);
            var past, now, found := Newest(files, mac, keyed), Newest(after, mac, keyed),
                Latest(files, CALM, mac, keyed, 2);
            && (0 <= found.slot < 2 ==> after[found.slot] == files[found.slot])
            && (now == past || now == Some(Backup(list, Generation(past) + 1)))
            && (result == Written ==> now == Some(Backup(list, Generation(past) + 1)) && now != past)
            && (result == Unchanged ==> after == files && past.Some? && past.value.list == list)
  {
    hide Latest, ReadSlot, Image, Authentic, Decode;
    LatestGeneration(files, mac, keyed);
    var found := Latest(files, faults, mac, keyed, 2);
    if !found.error {
      NoErrorIsCalm(files, faults, mac, keyed);
    }
    if Writes(found, list, keyed) {
      var image := Image(Backup(list, found.best.generation + 1), mac);
      WrittenReads(files, list, mac);
      Replaced(files, image, mac, keyed);
      if w.Stopped? && w.residue != image {
        Unread(w, image, mac, keyed);
        Replaced(files, w.residue, mac, keyed);
      }
    }
  }

  // ---- A backup is made whenever one can be ----

  /** The file holds this backup, and it authenticates. */
  predicate Holds(f: File, b: Backup, mac: Mac, keyed: bool) {
    f.Some? && |f.value| == IMAGE && Decode(f.value, mac, keyed) == Some(b)
  }

  /** The newest backup is the authentic one of the highest generation, the first file's if both have the same. */
  lemma NewestIs(files: seq<File>, mac: Mac, keyed: bool)
    requires |files| == 2
    ensures match Newest(files, mac, keyed)
            case None => forall i, b | 0 <= i < 2 :: !Holds(files[i], b, mac, keyed)
            case Some(newest) =>
              && (forall i, b | 0 <= i < 2 && Holds(files[i], b, mac, keyed) :: b.generation <= newest.generation)
              && (Holds(files[0], newest, mac, keyed)
                  || (Holds(files[1], newest, mac, keyed)
                      && forall b | Holds(files[0], b, mac, keyed) :: b.generation < newest.generation))
  {
    LatestIs(files, CALM, mac, keyed);
    forall i, b | 0 <= i < 2 && Holds(files[i], b, mac, keyed) ensures b.generation > 0 {
      OnlyImageDecodes(files[i].value, mac, keyed);
    }
    hide Decode, Latest;
  }

  /** Something keeps a backup from being tried at all. */
  predicate Hindered(files: seq<File>, faults: seq<bool>, list: seq<Ignored>, mac: Mac, keyed: bool)
    requires |files| == |faults| == 2
  {
    || !keyed || !ValidIgnores(list) || faults[0] || faults[1] || Stuck(files, mac, keyed)
    || Generation(Newest(files, mac, keyed)) == GENERATION_MAX
  }

  predicate Repeats(files: seq<File>, list: seq<Ignored>, mac: Mac, keyed: bool)
    requires |files| == 2
  {
    Newest(files, mac, keyed).Some? && Newest(files, mac, keyed).value.list == list
  }

  /**
   * The answer of every backup: a list that is the newest already is left alone, another one is written with the next
   * generation if the write goes through, and nothing else is answered unless something keeps it from being tried.
   */
  lemma BackupAnswers(files: seq<File>, faults: seq<bool>, list: seq<Ignored>, mac: Mac, keyed: bool, w: Write)
    requires |files| == |faults| == 2 && Proper(list) && Authentic(mac)
    ensures var (after, result) := BackupStep(files, faults, list, mac, keyed, w);
            if Hindered(files, faults, list, mac, keyed) then after == files && result == Failed
            else if Repeats(files, list, mac, keyed) then after == files && result == Unchanged
            else
              && (result == if w == Complete(true) then Written else Failed)
              && (w.NotOpened? ==> after == files)
              && (w.Complete? ==>
                    Newest(after, mac, keyed) == Some(Backup(list, Generation(Newest(files, mac, keyed)) + 1)))
              && (w.Stopped? ==> after == files[0 := Some(w.residue)] || after == files[1 := Some(w.residue)])
  {
    hide Latest, ReadSlot, Image, Authentic, Decode;
    LatestGeneration(files, mac, keyed);
    CalmIsNoError(files, faults, mac, keyed);
    ExistingIs(files, mac, keyed);
    var found := Latest(files, CALM, mac, keyed, 2);
    if !Hindered(files, faults, list, mac, keyed) && !Repeats(files, list, mac, keyed) {
      WrittenReads(files, list, mac);
      Replaced(files, Image(Backup(list, found.best.generation + 1), mac), mac, keyed);
    }
  }

  lemma CalmIsNoError(files: seq<File>, faults: seq<bool>, mac: Mac, keyed: bool)
    requires |files| == |faults| == 2
    ensures Latest(files, faults, mac, keyed, 2).error <==> faults[0] || faults[1]
    ensures !(faults[0] || faults[1]) ==> faults == CALM
  {
    hide Decode;
    LatestIs(files, faults, mac, keyed);
  }

  lemma ExistingIs(files: seq<File>, mac: Mac, keyed: bool)
    requires |files| == 2
    ensures Latest(files, CALM, mac, keyed, 2).existing <==> files[0].Some? || files[1].Some?
  {
    hide Decode;
    LatestIs(files, CALM, mac, keyed);
  }

  lemma Unread(w: Write, image: Bytes, mac: Mac, keyed: bool)
    requires w.Stopped? && w.residue != image && Unforged(w, image, mac, keyed)
    ensures ReadSlot(Some(w.residue), false, mac, keyed) == Invalid
  {
  }

  // ---- Every run ----

  datatype Attempt = Attempt(list: seq<Ignored>, faults: seq<bool>, write: Write)

  function Run(files: seq<File>, attempts: seq<Attempt>, mac: Mac, keyed: bool): (r: seq<File>)
    requires |files| == 2 && forall i | 0 <= i < |attempts| :: |attempts[i].faults| == 2
    ensures |r| == 2
  {
    if attempts == [] then files
    else
      var n := |attempts| - 1;
      var before := Run(files, attempts[..n], mac, keyed);
      BackupStep(before, attempts[n].faults, attempts[n].list, mac, keyed, attempts[n].write).0
  }

  /** How many attempts of the run were acknowledged as written. */
  function Acknowledged(files: seq<File>, attempts: seq<Attempt>, mac: Mac, keyed: bool): nat
    requires |files| == 2 && forall i | 0 <= i < |attempts| :: |attempts[i].faults| == 2
  {
    if attempts == [] then 0
    else
      var n := |attempts| - 1;
      var before := Run(files, attempts[..n], mac, keyed);
      Acknowledged(files, attempts[..n], mac, keyed)
      + if BackupStep(before, attempts[n].faults, attempts[n].list, mac, keyed, attempts[n].write).1 == Written then 1
          else 0
  }

  /** No attempt of the run leaves a forged file. */
  ghost predicate Honest(files: seq<File>, attempts: seq<Attempt>, mac: Mac, keyed: bool)
    requires |files| == 2 && forall i | 0 <= i < |attempts| :: |attempts[i].faults| == 2
  {
    forall i | 0 <= i < |attempts| ::
      && Proper(attempts[i].list)
      && Unforged(attempts[i].write,
                  Image(Backup(attempts[i].list, Generation(Newest(Run(files, attempts[..i], mac, keyed), mac, keyed))
                      + 1), mac),
                  mac, keyed)
  }

  lemma HonestPrefix(files: seq<File>, attempts: seq<Attempt>, n: nat, mac: Mac, keyed: bool)
    requires |files| == 2 && forall i | 0 <= i < |attempts| :: |attempts[i].faults| == 2
    requires n <= |attempts| && Honest(files, attempts, mac, keyed)
    ensures Honest(files, attempts[..n], mac, keyed)
  {
    hide Unforged, Run, Image, Newest, Generation, Proper;
    forall i | 0 <= i < n ensures attempts[..n][..i] == attempts[..i] && attempts[..n][i] == attempts[i] {
    }
  }

  /**
   * Over every run of backups and torn or failed writes, a later read gives what was there at the start or a
   * list that some attempt was given, and every acknowledged write has raised the generation.
   */
  lemma {:induction false} RunAtomic(files: seq<File>, attempts: seq<Attempt>, mac: Mac, keyed: bool)
    requires |files| == 2 && forall i | 0 <= i < |attempts| :: |attempts[i].faults| == 2
    requires Authentic(mac) && Honest(files, attempts, mac, keyed)
    ensures var past, now := Newest(files, mac, keyed), Newest(Run(files, attempts, mac, keyed), mac, keyed);
            && Generation(now) >= Generation(past) + Acknowledged(files, attempts, mac, keyed)
            && (now == past || (now.Some? && exists i | 0 <= i < |attempts| :: now.value.list == attempts[i].list))
  {
    hide BackupStep, Newest, Authentic, Unforged, Image, Proper, Latest;
    if attempts != [] {
      var n := |attempts| - 1;
      HonestPrefix(files, attempts, n, mac, keyed);
      RunAtomic(files, attempts[..n], mac, keyed);
      var a, before := attempts[n], Run(files, attempts[..n], mac, keyed);
      BackupAtomic(before, a.faults, a.list, mac, keyed, a.write);
      var now := Newest(Run(files, attempts, mac, keyed), mac, keyed);
      assert now == Newest(before, mac, keyed) || now.value.list == attempts[n].list;
    }
  }

  // ---- A first backup that is torn ends all backups ----

  /** Nothing authenticates, but a file is there. */
  predicate Stuck(files: seq<File>, mac: Mac, keyed: bool)
    requires |files| == 2
  {
    Newest(files, mac, keyed).None? && (files[0].Some? || files[1].Some?)
  }

  lemma StuckStays(files: seq<File>, faults: seq<bool>, list: seq<Ignored>, mac: Mac, keyed: bool, w: Write)
    requires |files| == |faults| == 2 && Stuck(files, mac, keyed)
    ensures BackupStep(files, faults, list, mac, keyed, w) == (files, Failed)
  {
    hide Decode, Image;
    LatestIs(files, faults, mac, keyed);
    LatestIs(files, CALM, mac, keyed);
  }

  lemma {:induction false} StuckForever(files: seq<File>, attempts: seq<Attempt>, mac: Mac, keyed: bool)
    requires |files| == 2 && forall i | 0 <= i < |attempts| :: |attempts[i].faults| == 2
    requires Stuck(files, mac, keyed)
    ensures Run(files, attempts, mac, keyed) == files && Acknowledged(files, attempts, mac, keyed) == 0
  {
    hide BackupStep, Stuck;
    if attempts != [] {
      var n := |attempts| - 1;
      StuckForever(files, attempts[..n], mac, keyed);
      StuckStays(files, attempts[n].faults, attempts[n].list, mac, keyed, attempts[n].write);
    }
  }

  const EMPTY: seq<File> := [None, None]

  lemma LatestOfNone(faults: seq<bool>, mac: Mac, keyed: bool)
    requires |faults| == 2
    ensures var found := Latest(EMPTY, faults, mac, keyed, 2);
            found.slot == -1 && found.best.generation == 0 && (found.error <==> faults != CALM)
            && (faults == CALM ==> found == NOTHING)
  {
    hide Decode;
    LatestIs(EMPTY, faults, mac, keyed);
  }

  /** A first backup on a calm card. */
  lemma FirstBackup(list: seq<Ignored>, mac: Mac, w: Write)
    requires Proper(list) && ValidIgnores(list) && Authentic(mac) && Unforged(w, Image(Backup(list, 1), mac), mac, true)
    ensures var after := BackupStep(EMPTY, CALM, list, mac, true, w).0;
            Stuck(after, mac, true) <==> w.Stopped? && w.residue != Image(Backup(list, 1), mac)
  {
    hide Decode, Image, Authentic, ReadSlot, Latest, Unforged;
    LatestOfNone(CALM, mac, true);
    var image := Image(Backup(list, 1), mac);
    WrittenReads(EMPTY, list, mac);
    Replaced(EMPTY, image, mac, true);
    if w.Stopped? && w.residue != image {
      Unread(w, image, mac, true);
      Replaced(EMPTY, w.residue, mac, true);
    }
  }

  /** A step gets stuck exactly if it is the first backup, gets to writing, and is stopped short of the image. */
  lemma StuckExactly(files: seq<File>, faults: seq<bool>, list: seq<Ignored>, mac: Mac, keyed: bool, w: Write)
    requires |files| == |faults| == 2 && Proper(list) && Authentic(mac) && !Stuck(files, mac, keyed)
    requires Unforged(w, Image(Backup(list, Generation(Newest(files, mac, keyed)) + 1), mac), mac, keyed)
    ensures Stuck(BackupStep(files, faults, list, mac, keyed, w).0, mac, keyed)
       <==> (&& files == EMPTY && keyed && ValidIgnores(list) && faults == CALM
             && w.Stopped? && w.residue != Image(Backup(list, 1), mac))
  {
    hide Decode, Image, Authentic, Unforged, Proper, ReadSlot, Latest;
    LatestOfNone(CALM, mac, keyed);
    LatestOfNone(faults, mac, keyed);
    BackupAtomic(files, faults, list, mac, keyed, w);
    if Newest(files, mac, keyed).None? {
      assert files == EMPTY;
      if keyed && ValidIgnores(list) && faults == CALM {
        FirstBackup(list, mac, w);
      }
    }
  }

  // ---- In place ----

  /** The encoder: the buffer is filled field by field. */
  method Encode(list: seq<Ignored>, generation: nat, mac: Mac) returns (bytes: array<Byte>)
    requires Proper(list) && Authentic(mac)
    ensures fresh(bytes) && bytes[..] == Image(Backup(list, generation), mac)
  {
    hide Little, Entries, Number;
    bytes := new Byte[IMAGE](_ => 0);
    Put(bytes, 0, MAGIC);
    Put(bytes, 8, Little(generation, 8));
    EntriesGrow(list, 0, MAGIC + Little(generation, 8));
    for i := 0 to CAPACITY
      invariant bytes[..HEADER + ENTRY * i] == MAGIC + Little(generation, 8) + Entries(list[..i])
    {
      Put(bytes, HEADER + ENTRY * i, Little(list[i].hash, 8));
      Put(bytes, HEADER + ENTRY * i + 8, [list[i].category]);
      EntriesGrow(list, i, MAGIC + Little(generation, 8));
    }
    assert list[..CAPACITY] == list;
    Put(bytes, SIGNED, mac(bytes[..SIGNED]));
    assert bytes[..] == bytes[..IMAGE];
  }

  lemma EntriesGrow(list: seq<Ignored>, i: nat, head: Bytes)
    requires Categories(list) && i < |list|
    ensures head + Entries(list[..i + 1]) == head + Entries(list[..i]) + Little(list[i].hash, 8) + [list[i].category]
    ensures i == 0 ==> head + Entries(list[..0]) == head
  {
    assert list[..i + 1][..i] == list[..i];
  }

  method Put(bytes: array<Byte>, at: nat, what: Bytes)
    requires at + |what| <= bytes.Length
    modifies bytes
    ensures bytes[..at + |what|] == old(bytes[..at]) + what
  {
    for i := 0 to |what|
      invariant bytes[..at + i] == old(bytes[..at]) + what[..i]
    {
      bytes[at + i] := what[i];
      assert bytes[..at + i + 1] == bytes[..at + i] + [what[i]];
    }
    assert what[..|what|] == what;
  }

  lemma {:induction false} NumberGrows(b: Bytes, x: Byte)
    ensures Number(b + [x]) == Number(b) + Power256(|b|) * x
  {
    if b == [] {
      assert (b + [x])[1..] == [];
    } else {
      NumberGrows(b[1..], x);
      assert (b + [x])[1..] == b[1..] + [x];
    }
  }

  lemma {:induction false} EntriesStep(b: Bytes, i: nat)
    requires ENTRY * (i + 1) <= |b|
    ensures ReadEntries(b[..ENTRY * (i + 1)], i + 1)
         == ReadEntries(b[..ENTRY * i], i) + [Ignored(Number(b[ENTRY * i..ENTRY * i + 8]), b[ENTRY * i + 8])]
  {
    var c := b[..ENTRY * (i + 1)];
    assert c[..ENTRY * i] == b[..ENTRY * i] && c[ENTRY * i..][..8] == b[ENTRY * i..ENTRY * i + 8];
  }

  /** The decoder: the whole tag is compared before anything behind it is believed. */
  method DecodeBytes(bytes: Bytes, mac: Mac, keyed: bool) returns (r: Option<Backup>)
    requires |bytes| == IMAGE && Authentic(mac)
    ensures r == Decode(bytes, mac, keyed)
  {
    hide ReadEntries, Number, Power256;
    if !keyed || bytes[..8] != MAGIC {
      return None;
    }
    var tag := mac(bytes[..SIGNED]);
    var difference := false;
    for i := 0 to MAC
      invariant difference <==> exists k | 0 <= k < i :: tag[k] != bytes[SIGNED + k]
    {
      difference := difference || tag[i] != bytes[SIGNED + i];
    }
    if difference {
      return None;
    }
    assert tag == bytes[SIGNED..];
    var gen := ReadNumber(bytes[8..HEADER]);
    if gen == 0 {
      return None;
    }
    var list := ReadList(bytes[HEADER..SIGNED]);
    if !ValidIgnores(list) {
      return None;
    }
    return Some(Backup(list, gen));
  }

  method ReadNumber(b: Bytes) returns (n: nat)
    ensures n == Number(b)
  {
    n := 0;
    var shift: nat := 1;
    for i := 0 to |b|
      invariant n == Number(b[..i]) && shift == Power256(i)
    {
      NumberGrows(b[..i], b[i]);
      assert b[..i + 1] == b[..i] + [b[i]];
      n, shift := n + shift * b[i], 256 * shift;
    }
    assert b[..|b|] == b;
  }

  method ReadList(b: Bytes) returns (list: seq<Ignored>)
    requires |b| == ENTRY * CAPACITY
    ensures list == ReadEntries(b, CAPACITY)
  {
    list := [];
    for i := 0 to CAPACITY
      invariant list == ReadEntries(b[..ENTRY * i], i)
    {
      EntriesStep(b, i);
      var hash := ReadNumber(b[ENTRY * i..ENTRY * i + 8]);
      list := list + [Ignored(hash, b[ENTRY * i + 8])];
    }
    assert b[..|b|] == b;
  }

  class IgnoreFiles {
    const files: array<File>

    ghost predicate Valid()
      reads this
    {
      files.Length == 2
    }

    constructor ()
      ensures Valid() && fresh(files) && files[..] == EMPTY
    {
      files := new File[2](_ => None);
    }

    /** The newest valid slot; a running best over both. */
    method FindLatest(faults: seq<bool>, mac: Mac, keyed: bool) returns (found: Found)
      requires Valid() && |faults| == 2
      ensures found == Latest(files[..], faults, mac, keyed, 2)
    {
      found := NOTHING;
      for slot := 0 to 2
        invariant found == Latest(files[..], faults, mac, keyed, slot)
      {
        var r := ReadSlot(files[slot], faults[slot], mac, keyed);
        found := found.(existing := found.existing || r != Missing, error := found.error || r == Error);
        if r.Good? && r.b.generation > found.best.generation {
          found := found.(slot := slot, best := r.b);
        }
      }
    }

    method Backup(list: seq<Ignored>, faults: seq<bool>, mac: Mac, keyed: bool, w: Write) returns (result: Result)
      requires Valid() && |faults| == 2 && Proper(list) && Authentic(mac)
      modifies files
      ensures (files[..], result) == BackupStep(old(files[..]), faults, list, mac, keyed, w)
    {
      if !keyed || !ValidIgnores(list) {
        return Failed;
      }
      var found := FindLatest(faults, mac, keyed);
      if found.error || (found.slot < 0 && found.existing) || found.best.generation == GENERATION_MAX {
        return Failed;
      }
      if found.slot >= 0 && found.best.list == list {
        return Unchanged;
      }
      var bytes := Encode(list, found.best.generation + 1, mac);
      var target := if found.slot == 0 then 1 else 0;
      match w
      case NotOpened => return Failed;
      case Stopped(residue) =>
        files[target] := Some(residue);
        return Failed;
      case Complete(ok) =>
        files[target] := Some(bytes[..]);
        return if ok then Written else Failed;
    }
  }
}
