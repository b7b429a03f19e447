/**
 The launcher's credential manager over the native credential store. The store is a map from
 target names to entries, with the error results the program distinguishes; byte, character
 and native buffers are arrays that the methods fill and clear in place, so that what is left
 in them on every way out can be stated.
 */
module CredentialStore {
  import opened Utf16
  import opened Wrappers

  type Byte = b: int | 0 <= b <= 255

  const MAX_BLOB_BYTES: nat := 2560
  const CRED_TYPE_GENERIC := 1

  const ALLOWED: seq<string> := ["LINE_CHANNEL_ACCESS_TOKEN", "LINE_CHANNEL_SECRET", "CLOUDFLARE_API_TOKEN", "GITHUB_TOKEN",
                                 "ALPHAVANTAGE_API_KEY"]

  /** A stored credential; its blob may be missing. */
  datatype Entry = Entry(kind: int, blob: Option<seq<Byte>>)

  /** What the operating system does with a call besides the map itself. */
  datatype Fault = NoFault | NativeError | OutOfMemory

  datatype Failure =
    | UnknownService | SecretRequired | SecretEmpty | SecretTooLarge | ForbiddenCharacters
    | WriteFailed | DeleteFailed | StoreUnavailable | StoreCorrupt | NotFound | CallbackRaised | MemoryExhausted

  datatype Result<T> = Ok(value: T) | Fail(failure: Failure)

  // ---- UTF-16 little-endian bytes

  function ToBytes(units: seq<Unit>): (r: seq<Byte>)
    ensures |r| == 2 * |units|
  {
    if units == [] then [] else [units[0] % 256, units[0] / 256] + ToBytes(units[1..])
  }

  function UnitOf(low: Byte, high: Byte): Unit {
    var l: int, h: int := low, high;
    l + 256 * h
  }

  function FromBytes(bytes: seq<Byte>): (r: seq<Unit>)
    requires |bytes| % 2 == 0
    ensures |r| == |bytes| / 2
  {
    if bytes == [] then [] else [UnitOf(bytes[0], bytes[1])] + FromBytes(bytes[2..])
  }

  lemma {:induction false} FromBytesUndoesToBytes(units: seq<Unit>)
    ensures FromBytes(ToBytes(units)) == units
  {
    if units != [] {
      FromBytesUndoesToBytes(units[1..]);
      assert ToBytes(units)[2..] == ToBytes(units[1..]);
      assert units == [units[0]] + units[1..];
    }
  }

  // ---- the rules

  predicate IsAllowed(service: string) { service in ALLOWED }

  predicate IsForbidden(u: Unit) { u == 0 || u == 0x0D || u == 0x0A }

  /** The secret is a .NET string, any sequence of code units, or null. */
  function ValidateSecret(secret: Option<seq<Unit>>): Option<Failure> {
    if secret.None? then Some(SecretRequired)
    else if secret.value == [] then Some(SecretEmpty)
    else if 2 * |secret.value| > MAX_BLOB_BYTES then Some(SecretTooLarge)
    else if exists i :: 0 <= i < |secret.value| && IsForbidden(secret.value[i]) then Some(ForbiddenCharacters)
    else None
  }

  predicate IsSound(e: Entry) {
    && e.kind == CRED_TYPE_GENERIC && e.blob.Some?
    && 0 < |e.blob.value| <= MAX_BLOB_BYTES && |e.blob.value| % 2 == 0
  }

  /** The characters a reader of the entry is given. */
  function Characters(e: Entry): seq<Unit>
    requires IsSound(e)
  {
    Repaired(FromBytes(e.blob.value))
  }

  function NewEntry(secret: seq<Unit>): Entry {
    Entry(CRED_TYPE_GENERIC, Some(ToBytes(Repaired(secret))))
  }

  // ---- what the operations do to the store

  function SetOutcome(service: string, secret: Option<seq<Unit>>, fault: Fault): Result<()> {
    if !IsAllowed(service) then Fail(UnknownService)
    else if ValidateSecret(secret).Some? then Fail(ValidateSecret(secret).value)
    else if fault.OutOfMemory? then Fail(MemoryExhausted)
    else if fault.NativeError? then Fail(WriteFailed)
    else Ok(())
  }

  /** The entry a read finds, before it is used. */
  function ReadOutcome(store: map<string, Entry>, prefix: string, service: string, fault: Fault): Result<Entry> {
    if !IsAllowed(service) then Fail(UnknownService)
    else if !fault.NoFault? then Fail(StoreUnavailable)
    else if prefix + service !in store then Fail(NotFound)
    else if !IsSound(store[prefix + service]) then Fail(StoreCorrupt)
    else Ok(store[prefix + service])
  }

  /** The bytes the native read hands over, also when the entry turns out to be corrupt. */
  function NativeBytes(store: map<string, Entry>, prefix: string, service: string, fault: Fault): seq<Byte> {
    if IsAllowed(service) && fault.NoFault? && prefix + service in store && store[prefix + service].blob.Some?
    then store[prefix + service].blob.value else []
  }

  ghost predicate AllZero(s: seq<int>) { forall i :: 0 <= i < |s| ==> s[i] == 0 }

  /** A native buffer on the way out: zeroed, unless it was larger than any blob the program accepts. */
  ghost predicate IsLeftAfterUse(left: seq<Byte>, handed: seq<Byte>) {
    |left| == |handed| && if |handed| <= MAX_BLOB_BYTES then AllZero(left) else left == handed
  }

  class SecureCredentialManager {
    var store: map<string, Entry>
    const prefix: string

    constructor (prefix: string, store: map<string, Entry>)
      ensures this.prefix == prefix && this.store == store
    {
      this.prefix := prefix;
      this.store := store;
    }

    method SetSecret(service: string, secret: Option<seq<Unit>>, fault: Fault)
      returns (r: Result<()>)
      modifies this`store
      ensures r == SetOutcome(service, secret, fault)
      ensures store == if r.Ok? then old(store)[prefix + service := NewEntry(secret.value)] else old(store)
      // every buffer of the call, managed or native
      ensures forall b: array<Byte> :: b.Length >= 0 && fresh(b) ==> AllZero(b[..])
      ensures forall c: array<Unit> :: c.Length >= 0 && fresh(c) ==> AllZero(c[..])
    {
      if !IsAllowed(service) { return Fail(UnknownService); }
      var problem := ValidateSecret(secret);
      if problem.Some? { return Fail(problem.value); }
      var encoded := GetBytes(secret.value);
      if fault.OutOfMemory? {
        ClearBytes(encoded);
        return Fail(MemoryExhausted);
      }
      var unmanaged := CopyBytes(encoded);
      ClearBytes(encoded);
      if fault.NativeError? {
        r := Fail(WriteFailed);
      } else {
        store := store[prefix + service := Entry(CRED_TYPE_GENERIC, Some(unmanaged[..]))];
        r := Ok(());
      }
      ClearBytes(unmanaged);
    }

    method WithSecret<T>(service: string, callback: seq<Unit> -> Result<T>, fault: Fault)
      returns (r: Result<T>, ghost blob: array<Byte>)
      ensures var found := ReadOutcome(store, prefix, service, fault);
              r == if found.Fail? then Fail(found.failure) else callback(Characters(found.value))
      // the native blob, and every other buffer of the call
      ensures IsLeftAfterUse(blob[..], NativeBytes(store, prefix, service, fault))
      ensures forall b: array<Byte> :: b.Length >= 0 && b != blob && fresh(b) ==> AllZero(b[..])
      ensures forall c: array<Unit> :: c.Length >= 0 && fresh(c) ==> AllZero(c[..])
    {
      var none := NewArray([]);
      blob := none;
      if !IsAllowed(service) { return Fail(UnknownService), blob; }
      if !fault.NoFault? { return Fail(StoreUnavailable), blob; }
      if prefix + service !in store { return Fail(NotFound), blob; }
      var entry := store[prefix + service];
      var handed := NewArray(if entry.blob.Some? then entry.blob.value else []);
      blob := handed;
      if !IsSound(entry) {
        ZeroNativeBlob(handed);
        return Fail(StoreCorrupt), blob;
      }
      var managed := CopyBytes(handed);
      var decoded := GetChars(managed);
      ClearBytes(managed);
      r := callback(decoded[..]);
      ClearChars(decoded);
      ZeroNativeBlob(handed);
    }

    method ContainsCredential(service: string, fault: Fault) returns (r: Result<bool>, ghost blob: array<Byte>)
      ensures var found := ReadOutcome(store, prefix, service, fault);
              r == if found.Ok? then Ok(true) else if found.failure.NotFound? then Ok(false) else Fail(found.failure)
      ensures IsLeftAfterUse(blob[..], NativeBytes(store, prefix, service, fault))
      ensures forall b: array<Byte> :: b.Length >= 0 && b != blob && fresh(b) ==> AllZero(b[..])
    {
      var none := NewArray([]);
      blob := none;
      if !IsAllowed(service) { return Fail(UnknownService), blob; }
      if !fault.NoFault? { return Fail(StoreUnavailable), blob; }
      if prefix + service !in store { return Ok(false), blob; }
      var entry := store[prefix + service];
      var handed := NewArray(if entry.blob.Some? then entry.blob.value else []);
      blob := handed;
      r := if IsSound(entry) then Ok(true) else Fail(StoreCorrupt);
      ZeroNativeBlob(handed);
    }

    method DeleteCredential(service: string, fault: Fault) returns (r: Result<bool>)
      modifies this`store
      ensures r == if !IsAllowed(service) then Fail(UnknownService)
                   else if !fault.NoFault? then Fail(DeleteFailed)
                   else Ok(prefix + service in old(store))
      ensures store == if r.Ok? then old(store) - {prefix + service} else old(store)
    {
      if !IsAllowed(service) { return Fail(UnknownService); }
      if !fault.NoFault? { return Fail(DeleteFailed); }
      if prefix + service !in store { return Ok(false); }
      store := store - {prefix + service};
      r := Ok(true);
    }
  }

  // ---- buffers

  method NewArray(content: seq<Byte>) returns (a: array<Byte>)
    ensures fresh(a) && a[..] == content
    ensures forall b: array<Byte> :: b.Length >= 0 && b != a ==> !fresh(b)
    ensures forall c: array<Unit> :: c.Length >= 0 ==> !fresh(c)
  {
    a := new Byte[|content|](i requires 0 <= i < |content| => content[i]);
  }

  method CopyBytes(from: array<Byte>) returns (a: array<Byte>)
    ensures fresh(a) && a[..] == from[..]
    ensures forall b: array<Byte> :: b.Length >= 0 && b != a ==> !fresh(b)
    ensures forall c: array<Unit> :: c.Length >= 0 ==> !fresh(c)
  {
    a := new Byte[from.Length];
    for i := 0 to from.Length
      invariant forall j :: 0 <= j < i ==> a[j] == from[j]
      invariant forall b: array<Byte> :: b.Length >= 0 && b != a ==> !fresh(b)
      invariant forall c: array<Unit> :: c.Length >= 0 ==> !fresh(c)
    {
      a[i] := from[i];
    }
  }

  method ClearBytes(a: array<Byte>)
    modifies a
    ensures AllZero(a[..])
    ensures forall b: array<Byte> :: b.Length >= 0 ==> !fresh(b)
    ensures forall c: array<Unit> :: c.Length >= 0 ==> !fresh(c)
  {
    for i := 0 to a.Length
      invariant forall j :: 0 <= j < i ==> a[j] == 0
      invariant forall b: array<Byte> :: b.Length >= 0 ==> !fresh(b)
      invariant forall c: array<Unit> :: c.Length >= 0 ==> !fresh(c)
    {
      a[i] := 0;
    }
  }

  method ClearChars(a: array<Unit>)
    modifies a
    ensures AllZero(a[..])
    ensures forall b: array<Byte> :: b.Length >= 0 ==> !fresh(b)
    ensures forall c: array<Unit> :: c.Length >= 0 ==> !fresh(c)
  {
    for i := 0 to a.Length
      invariant forall j :: 0 <= j < i ==> a[j] == 0
      invariant forall b: array<Byte> :: b.Length >= 0 ==> !fresh(b)
      invariant forall c: array<Unit> :: c.Length >= 0 ==> !fresh(c)
    {
      a[i] := 0;
    }
  }

  /** Zeroes the native blob of a read credential, if its size is one the program accepts. */
  method ZeroNativeBlob(a: array<Byte>)
    modifies a
    ensures IsLeftAfterUse(a[..], old(a[..]))
    ensures forall b: array<Byte> :: b.Length >= 0 ==> !fresh(b)
    ensures forall c: array<Unit> :: c.Length >= 0 ==> !fresh(c)
  {
    if a.Length <= MAX_BLOB_BYTES { ClearBytes(a); }
  }

  lemma {:induction false} ToBytesAt(units: seq<Unit>, i: nat)
    requires i < |units|
    ensures ToBytes(units)[2 * i] == units[i] % 256 && ToBytes(units)[2 * i + 1] == units[i] / 256
  {
    if i > 0 { ToBytesAt(units[1..], i - 1); }
  }

  lemma {:induction false} FromBytesAt(bytes: seq<Byte>, i: nat)
    requires |bytes| % 2 == 0 && 2 * i + 1 < |bytes|
    ensures FromBytes(bytes)[i] == UnitOf(bytes[2 * i], bytes[2 * i + 1])
  {
    if i > 0 { FromBytesAt(bytes[2..], i - 1); }
  }

  /** `Encoding.Unicode.GetBytes` */
  method GetBytes(secret: seq<Unit>) returns (bytes: array<Byte>)
    ensures fresh(bytes) && bytes[..] == ToBytes(Repaired(secret))
    ensures forall b: array<Byte> :: b.Length >= 0 && b != bytes ==> !fresh(b)
    ensures forall c: array<Unit> :: c.Length >= 0 ==> !fresh(c)
  {
    var units := Repaired(secret);
    bytes := new Byte[2 * |units|];
    for i := 0 to |units|
      invariant forall j :: 0 <= j < i ==> bytes[2 * j] == units[j] % 256 && bytes[2 * j + 1] == units[j] / 256
      invariant forall b: array<Byte> :: b.Length >= 0 && b != bytes ==> !fresh(b)
      invariant forall c: array<Unit> :: c.Length >= 0 ==> !fresh(c)
    {
      bytes[2 * i], bytes[2 * i + 1] := units[i] % 256, units[i] / 256;
    }
    forall k | 0 <= k < 2 * |units| ensures bytes[k] == ToBytes(units)[k] {
      ToBytesAt(units, k / 2);
      assert k == 2 * (k / 2) || k == 2 * (k / 2) + 1;
    }
  }

  /** `Encoding.Unicode.GetChars` */
  method GetChars(bytes: array<Byte>) returns (chars: array<Unit>)
    requires bytes.Length % 2 == 0
    ensures fresh(chars) && chars[..] == Repaired(FromBytes(bytes[..]))
    ensures forall b: array<Byte> :: b.Length >= 0 ==> !fresh(b)
    ensures forall c: array<Unit> :: c.Length >= 0 && c != chars ==> !fresh(c)
  {
    var raw: seq<Unit> := [];
    for i := 0 to bytes.Length / 2
      invariant raw == FromBytes(bytes[..])[..i]
      invariant forall b: array<Byte> :: b.Length >= 0 ==> !fresh(b)
      invariant forall c: array<Unit> :: c.Length >= 0 ==> !fresh(c)
    {
      FromBytesAt(bytes[..], i);
      raw := raw + [UnitOf(bytes[2 * i], bytes[2 * i + 1])];
    }
    assert raw == FromBytes(bytes[..]);
    var units := Repaired(raw);
    chars := new Unit[|units|](i requires 0 <= i < |units| => units[i]);
  }

  // ---- what the manager accepts

  /** The five services it keeps secrets for. */
  ghost predicate IsKnownService(service: string) {
    || service == "LINE_CHANNEL_ACCESS_TOKEN" || service == "LINE_CHANNEL_SECRET" || service == "CLOUDFLARE_API_TOKEN"
    || service == "GITHUB_TOKEN" || service == "ALPHAVANTAGE_API_KEY"
  }

  lemma KnownServices(service: string)
    ensures IsAllowed(service) <==> IsKnownService(service)
  {
    assert ALLOWED[0] == "LINE_CHANNEL_ACCESS_TOKEN" && ALLOWED[1] == "LINE_CHANNEL_SECRET" && ALLOWED[2] == "CLOUDFLARE_API_TOKEN"
           && ALLOWED[3] == "GITHUB_TOKEN" && ALLOWED[4] == "ALPHAVANTAGE_API_KEY" && |ALLOWED| == 5;
  }

  /** One to 1280 units, none of them a null character or a line break. */
  ghost predicate IsStorable(secret: seq<Unit>) {
    0 < |secret| <= 1280 && forall u :: u in secret ==> u != 0 && u != 10 && u != 13
  }

  /** Without a fault a secret is stored exactly when its service is known and it is storable; an unknown service is refused before
      the secret is looked at. */
  lemma StoredIff(service: string, secret: Option<seq<Unit>>)
    ensures SetOutcome(service, secret, NoFault).Ok? <==> IsKnownService(service) && secret.Some? && IsStorable(secret.value)
    ensures SetOutcome(service, secret, NoFault) == Fail(UnknownService) <==> !IsKnownService(service)
    ensures IsKnownService(service) ==> forall fault ::
              SetOutcome(service, secret, fault) ==
              if secret.None? then Fail(SecretRequired)
              else if |secret.value| == 0 then Fail(SecretEmpty)
              else if |secret.value| > 1280 then Fail(SecretTooLarge)
              else if !IsStorable(secret.value) then Fail(ForbiddenCharacters)
              else match fault case NoFault => Ok(()) case NativeError => Fail(WriteFailed) case OutOfMemory => Fail(MemoryExhausted)
  {
    KnownServices(service);
    if secret.Some? {
      if u :| u in secret.value && (u == 0 || u == 10 || u == 13) {
        var i :| 0 <= i < |secret.value| && secret.value[i] == u;
        assert IsForbidden(secret.value[i]);
      }
      if i :| 0 <= i < |secret.value| && IsForbidden(secret.value[i]) { assert secret.value[i] in secret.value; }
    }
  }

  /** A generic credential of 2 to 2560 bytes, an even number of them. */
  ghost predicate IsReadable(e: Entry) {
    e.kind == 1 && e.blob.Some? && 2 <= |e.blob.value| <= 2560 && |e.blob.value| % 2 == 0
  }

  /** What a read finds: an entry of a known service is handed over exactly when it is readable, and is corrupt otherwise. */
  lemma FoundIff(store: map<string, Entry>, prefix: string, service: string)
    requires IsKnownService(service)
    ensures ReadOutcome(store, prefix, service, NoFault) ==
            if prefix + service !in store then Fail(NotFound)
            else if IsReadable(store[prefix + service]) then Ok(store[prefix + service])
            else Fail(StoreCorrupt)
  {
    KnownServices(service);
  }

  // ---- the manager as a map from service to text

  lemma ReadBack(secret: seq<Unit>)
    requires ValidateSecret(Some(secret)).None?
    ensures IsSound(NewEntry(secret)) && Characters(NewEntry(secret)) == Repaired(secret)
  {
    FromBytesUndoesToBytes(Repaired(secret));
    RepairedIsPaired(secret);
    RepairedIsSameIffPaired(Repaired(secret));
  }

  /**
   After a successful write, a read of the same service is given the written characters, exactly when the text has no lone
   surrogate (with one, it is given the replacement character in its place). Every other service is read as before.
   */
  lemma ReadAfterWrite(store: map<string, Entry>, prefix: string, service: string, secret: seq<Unit>, other: string, fault: Fault)
    requires SetOutcome(service, Some(secret), NoFault).Ok?
    ensures var after := store[prefix + service := NewEntry(secret)];
            && ReadOutcome(after, prefix, service, NoFault) == Ok(NewEntry(secret))
            && (Characters(NewEntry(secret)) == secret <==> IsPaired(secret))
            && (other != service ==> ReadOutcome(after, prefix, other, fault) == ReadOutcome(store, prefix, other, fault))
  {
    ReadBack(secret);
    RepairedIsSameIffPaired(secret);
    TargetsDiffer(prefix, service, other);
  }

  lemma TargetsDiffer(prefix: string, service: string, other: string)
    ensures prefix + service == prefix + other <==> service == other
  {
    assert (prefix + service)[|prefix|..] == service && (prefix + other)[|prefix|..] == other;
  }

  /** After a delete the service is missing, whatever was stored, and every other service is read as before. */
  lemma ReadAfterDelete(store: map<string, Entry>, prefix: string, service: string, other: string, fault: Fault)
    requires IsAllowed(service)
    ensures var after := store - {prefix + service};
            && ReadOutcome(after, prefix, service, NoFault) == Fail(NotFound)
            && (other != service ==> ReadOutcome(after, prefix, other, fault) == ReadOutcome(store, prefix, other, fault))
  {
    TargetsDiffer(prefix, service, other);
  }

  /** A write never stores what a later read would call corrupt, nor an oversized blob that a read would leave behind. */
  lemma WrittenEntriesAreCleared(store: map<string, Entry>, prefix: string, service: string, secret: seq<Unit>, left: seq<Byte>)
    requires SetOutcome(service, Some(secret), NoFault).Ok?
    requires IsLeftAfterUse(left, NativeBytes(store[prefix + service := NewEntry(secret)], prefix, service, NoFault))
    ensures AllZero(left)
  {
    ReadBack(secret);
  }

  /** An oversized entry is the one case in which a read leaves bytes behind: they are all still there. */
  lemma OversizedBlobIsLeft(store: map<string, Entry>, prefix: string, service: string, left: seq<Byte>)
    requires IsAllowed(service) && prefix + service in store && store[prefix + service].blob.Some?
    requires IsLeftAfterUse(left, store[prefix + service].blob.value)
    ensures AllZero(left) <==> |store[prefix + service].blob.value| <= 2560 || AllZero(store[prefix + service].blob.value)
  {
  }
}
