/** What each answer of the configuration service says about the request, the access and the store. */
module SettingsService {
  import Controller = ControllerSpec
  import Journal = SettingsJournal
  import opened Options
  import SettingsPayload
  import opened SettingsProtocol
  import SettingsRecord
  import opened UserSettings

  // ---------- the request, on its bytes ----------

  predicate IsRead(r: Frame) {
    r.kind == 0x01 && r.status == 0 && r.payloadSize == 0
  }

  predicate IsWrite(r: Frame) {
    r.kind == 0x02 && r.status == 0 && r.payloadSize == 40
  }

  predicate IsIdentify(r: Frame) {
    r.kind == 0x03 && r.status == 0 && r.payloadSize == 0
  }

  predicate IsRequest(r: Frame) {
    IsRead(r) || IsWrite(r) || IsIdentify(r)
  }

  /** The payload is the one encoding of valid settings. */
  predicate Encodes(r: Frame, u: UserSettings) {
    Valid(u) && r.payload == SettingsPayload.PayloadOf(u)
  }

  lemma SizesAre(r: Frame)
    ensures r.payloadSize == 40 <==> Size(r) == 40
    ensures r.payloadSize == 0 <==> Size(r) == 0
  {
  }

  lemma DecodesExactly(r: Frame, u: UserSettings)
    requires Size(r) == 40
    ensures SettingsPayload.Decode(r.payload, Size(r)) == Some(u) <==> Encodes(r, u)
    ensures SettingsPayload.Decode(r.payload, Size(r)).Some? ==> Encodes(r, SettingsPayload.Decode(r.payload, Size(r)).value)
  {
    hide SettingsPayload.Decode;
    hide SettingsPayload.PayloadOf;
    hide Valid;
    if SettingsPayload.Decode(r.payload, Size(r)).Some? {
      SettingsPayload.EncodeDecoded(r.payload, Size(r));
    }
    if Encodes(r, u) {
      SettingsPayload.DecodeEncoded(u);
    }
  }

  // ---------- the answers ----------

  /** What the service decides about a write once it is admitted as far as its payload. */
  lemma WriteDecided(b: Journal.Backend, id: Identity, st: Journal.Stored, r: Frame, access: Access)
    requires IsWrite(r) && access.authorized && access.controllerState == Controller.Idle
    ensures var decoded := SettingsPayload.Decode(r.payload, Size(r));
            && Requested(r, access) == decoded
            && Handle(b, id, st, r, access).status
               == if decoded.None? then 5 else if Journal.Saved(b, st, decoded.value) then 0 else 6
  {
    SizesAre(r);
    hide SettingsPayload.Decode;
    hide Journal.Saved;
    hide Journal.Load;
    hide Valid;
  }

  /** Each status is answered exactly when the first check that fails is its own. */
  lemma StatusExactly(b: Journal.Backend, id: Identity, st: Journal.Stored, r: Frame, access: Access)
    ensures var status := Handle(b, id, st, r, access).status;
            var idle := access.controllerState == Controller.Idle;
            && (status == 2 <==> r.kind != 0x01 && r.kind != 0x02 && r.kind != 0x03)
            && (status == 1 <==> (r.kind == 0x01 || r.kind == 0x02 || r.kind == 0x03) && !IsRequest(r))
            && (status == 3 <==> IsRequest(r) && !access.authorized)
            && (status == 4 <==> IsWrite(r) && access.authorized && !idle)
            && (status == 5 <==> IsWrite(r) && access.authorized && idle && forall u :: !Encodes(r, u))
            && (status == 6 <==> IsWrite(r) && access.authorized && idle && exists u :: Encodes(r, u) && !Journal.Saved(b, st, u))
            && (status == 7 <==> IsRead(r) && access.authorized && Journal.Load(b, st).None?)
            && (status == 0 <==>
                  || (IsIdentify(r) && access.authorized)
                  || (IsRead(r) && access.authorized && Journal.Load(b, st).Some?)
                  || (IsWrite(r) && access.authorized && idle && exists u :: Encodes(r, u) && Journal.Saved(b, st, u)))
  {
    SizesAre(r);
    if Journal.Load(b, st).Some? {
      Journal.LoadedIsStored(b, st);
    }
    if IsWrite(r) && access.authorized && access.controllerState == Controller.Idle {
      WriteDecided(b, id, st, r, access);
      DecodedPayload(b, st, r);
    }
    hide SettingsPayload.Decode;
    hide SettingsPayload.PayloadOf;
    hide Journal.Saved;
    hide Journal.Load;
    hide Valid;
    hide Encodes;
  }

  lemma DecodedPayload(b: Journal.Backend, st: Journal.Stored, r: Frame)
    requires Size(r) == 40
    ensures var decoded := SettingsPayload.Decode(r.payload, Size(r));
            && (decoded.None? <==> forall u :: !Encodes(r, u))
            && (decoded.Some? ==>
                  && ((exists u :: Encodes(r, u) && Journal.Saved(b, st, u)) <==> Journal.Saved(b, st, decoded.value))
                  && ((exists u :: Encodes(r, u) && !Journal.Saved(b, st, u)) <==> !Journal.Saved(b, st, decoded.value)))
  {
    forall u
      ensures SettingsPayload.Decode(r.payload, Size(r)) == Some(u) <==> Encodes(r, u)
    {
      DecodesExactly(r, u);
    }
    if SettingsPayload.Decode(r.payload, Size(r)).Some? {
      DecodesExactly(r, SettingsPayload.Decode(r.payload, Size(r)).value);
    }
    hide SettingsPayload.Decode;
    hide SettingsPayload.PayloadOf;
    hide Journal.Saved;
    hide Valid;
    hide Encodes;
  }

  /** A write answered Ok stored exactly the record of its settings in the slot chosen, and was authorized and idle. */
  lemma OkIsStored(b: Journal.Backend, id: Identity, st: Journal.Stored, r: Frame, access: Access) returns (u: UserSettings)
    requires r.kind == 0x02 && Handle(b, id, st, r, access).status == 0
    ensures IsWrite(r) && access.authorized && access.controllerState == Controller.Idle
    ensures Encodes(r, u) && Requested(r, access) == Some(u) && Journal.Saved(b, st, u)
    ensures var target := Journal.SaveTarget(st);
            Journal.SlotBytes(AfterHandle(b, st, r, access).medium.visible, target.slot)
            == SettingsRecord.Encoded(SettingsRecord.Record(u, target.generation))
  {
    StatusExactly(b, id, st, r, access);
    WriteDecided(b, id, st, r, access);
    u := SettingsPayload.Decode(r.payload, Size(r)).value;
    DecodesExactly(r, u);
    Journal.SuccessIsStored(b, st, u);
    hide SettingsPayload.Decode;
    hide Journal.Saved;
    hide Journal.AfterSave;
    hide Journal.AfterLoad;
    hide Journal.SaveTarget;
    hide Journal.SlotBytes;
    hide SettingsRecord.Encoded;
    hide Encodes;
    hide Handle;
  }

  /**
   * What an answer carries: the number of its request and its own kind; settings
   * only to an authorized read, an identity only to an authorized question.
   */
  lemma AnswerCarries(b: Journal.Backend, id: Identity, st: Journal.Stored, r: Frame, access: Access)
    ensures var a := Handle(b, id, st, r, access);
            && a.requestId == r.requestId
            && a.kind == (if r.kind == 0x01 then 0x81 else if r.kind == 0x02 then 0x82 else if r.kind == 0x03 then 0x83 else 0xFF)
            && (a.status == 0 && r.kind == 0x01 ==>
                  && Journal.Load(b, st).Some? && a.payloadSize == 40
                  && a.payload == SettingsPayload.PayloadOf(Journal.Load(b, st).value))
            && (a.status == 0 && r.kind == 0x03 ==>
                  a.payloadSize == 12 && a.payload[..12] == id && forall i :: 12 <= i < 40 ==> a.payload[i] == 0)
            && (a.status != 0 || r.kind == 0x02 ==> a.payloadSize == 0 && forall i :: 0 <= i < 40 ==> a.payload[i] == 0)
  {
    hide SettingsPayload.Decode;
    hide SettingsPayload.PayloadOf;
    hide Journal.Saved;
    hide Journal.Load;
    hide Valid;
    hide Size;
  }

  /** The store is loaded exactly by an authorized read, saved exactly by a write of valid settings, and otherwise left alone. */
  lemma StoreTouched(b: Journal.Backend, st: Journal.Stored, r: Frame, access: Access, u: UserSettings)
    ensures var after := AfterHandle(b, st, r, access);
            var writes := IsWrite(r) && access.authorized && access.controllerState == Controller.Idle;
            && (IsRead(r) && access.authorized ==> after == Journal.AfterLoad(b, st))
            && (writes && Encodes(r, u) ==> after == Journal.AfterSave(b, st, u))
            && (!(IsRead(r) && access.authorized) && !(writes && exists w :: Encodes(r, w)) ==> after == st)
  {
    SizesAre(r);
    if IsWrite(r) {
      DecodedPayload(b, st, r);
      DecodesExactly(r, u);
    }
    hide SettingsPayload.Decode;
    hide Journal.AfterSave;
    hide Journal.AfterLoad;
    hide Encodes;
  }

  // ---------- what a save needs ----------

  /** What the service asks of the storage: a load for an authorized read, a save for a write of valid settings, else nothing. */
  lemma AskedExactly(b: Journal.Backend, st: Journal.Stored, r: Frame, access: Access, u: UserSettings)
    ensures var asked := Asked(b, st, r, access);
            var writes := IsWrite(r) && access.authorized && access.controllerState == Controller.Idle;
            && (IsRead(r) && access.authorized ==> asked == Journal.LoadRequests(b))
            && (writes && Encodes(r, u) ==> asked == Journal.SaveRequests(b, st, u))
            && (!(IsRead(r) && access.authorized) && !(writes && exists w :: Encodes(r, w)) ==> asked == [])
  {
    SizesAre(r);
    if IsWrite(r) {
      DecodedPayload(b, st, r);
      DecodesExactly(r, u);
    }
    hide SettingsPayload.Decode;
    hide Journal.SaveRequests;
    hide Journal.LoadRequests;
    hide Encodes;
  }

  /** Falling back: what is loaded if anything is, else the defaults with remote start disabled. */
  lemma FailSafeExactly(b: Journal.Backend, st: Journal.Stored)
    ensures var loaded, used := Journal.Load(b, st), Journal.FailSafe(Journal.Load(b, st));
            && (loaded.Some? ==> used == loaded.value && Valid(used))
            && (loaded.None? ==> !used.remoteStartEnabled && used.(remoteStartEnabled := true) == DEFAULT_SETTINGS)
  {
    if Journal.Load(b, st).Some? {
      Journal.LoadedIsStored(b, st);
    }
    hide Journal.Load;
    hide Valid;
  }

  /** A load fails exactly when the storage is too small or neither slot can be read and holds a record. */
  lemma LoadFailsExactly(b: Journal.Backend, st: Journal.Stored)
    ensures Journal.Load(b, st).None? <==>
              || b.capacity < 128
              || ((!b.script(st.calls).ok || SettingsRecord.Decoded(Journal.SlotBytes(st.medium.visible, 0)).None?)
                  && (!b.script(st.calls + 1).ok || SettingsRecord.Decoded(Journal.SlotBytes(st.medium.visible, 1)).None?))
  {
    hide SettingsRecord.Decoded;
    hide Journal.SlotBytes;
  }
}
