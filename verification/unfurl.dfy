/** The unfurler: fetch a page's preview once, count it, stamp the row. */
module Unfurl {
  import opened Models
  import opened WorkQueue
  import S = StoreSpec
  import M = MemoryStore
  import Patch

  datatype Preview = Preview(title: string, image: string, description: string)

  class Unfurler {
    const storage: M.MemoryStore
    var fetched: int
    var failed: int

    constructor (storage: M.MemoryStore)
      ensures this.storage == storage && fetched == 0 && failed == 0
    {
      this.storage := storage;
      fetched, failed := 0, 0;
    }

    /** `page` is what doFetch gave; after an error the row is stamped all the same, with an
        empty preview, and a row deleted in the meantime stays deleted. */
    method Fetch(j: Job, page: Option<Preview>, now: Time)
      requires storage.Valid()
      modifies this, if j.code in storage.urls then {storage.urls[j.code]} else {}
      ensures storage.Valid()
      ensures storage.Contents() == S.Update(old(storage.Contents()), j.code, Stamp(page), now)
      ensures fetched == old(fetched) + (if page.Some? then 1 else 0)
      ensures failed == old(failed) + (if page.Some? then 0 else 1)
    {
      Tally(page.Some?);
      var preview := page.GetOr(Preview("", "", ""));
      var fields := Patch.UnfurlFields(preview.title, preview.image, preview.description);
      assert fields == Stamp(page);
      var err := storage.Update(j.code, fields, now);
    }

    method Tally(ok: bool)
      modifies this`fetched, this`failed
      ensures fetched == old(fetched) + (if ok then 1 else 0) && failed == old(failed) + (if ok then 0 else 1)
      ensures storage.Contents() == old(storage.Contents())
    {
      if ok {
        fetched := fetched + 1;
      } else {
        failed := failed + 1;
      }
      storage.AllKept();
    }
  }

  function Stamp(page: Option<Preview>): UpdateFields {
    var p := page.GetOr(Preview("", "", ""));
    Patch.UnfurlFields(p.title, p.image, p.description)
  }

  /** Rows only: the three ways other handlers write a row leave the preview alone. */
  lemma StampsOnRows(row: Row, page: Option<Preview>, now: Time, ev: ClickEvent, hash: Bytes, id: int)
    ensures var f := Stamp(page);
      && S.Clicked(S.ApplyUpdate(row, f, now), ev) == S.ApplyUpdate(S.Clicked(row, ev), f, now)
      && S.ApplyUpdate(row, f, now).(ownerTokenHash := hash) == S.ApplyUpdate(row.(ownerTokenHash := hash), f, now)
      && S.Unlink(S.ApplyUpdate(row, f, now), id) == S.ApplyUpdate(S.Unlink(row, id), f, now)
  {
  }

  lemma StampAndClick(s: S.State, code: string, page: Option<Preview>, now: Time, c: string, ev: ClickEvent)
    ensures S.RecordClick(S.Update(s, code, Stamp(page), now), c, ev)
      == S.Update(S.RecordClick(s, c, ev), code, Stamp(page), now)
  {
    hide S.ApplyUpdate;
    if code in s.urls && c in s.urls {
      StampsOnRows(s.urls[code], page, now, ev, [], 0);
      assert S.RecordClick(S.Update(s, code, Stamp(page), now), c, ev).urls
        == S.Update(S.RecordClick(s, c, ev), code, Stamp(page), now).urls;
    }
  }

  lemma StampAndRotate(s: S.State, code: string, page: Option<Preview>, now: Time, c: string, hash: Bytes)
    ensures S.RotateToken(S.Update(s, code, Stamp(page), now), c, hash)
      == S.Update(S.RotateToken(s, c, hash), code, Stamp(page), now)
  {
    hide S.ApplyUpdate;
    if code in s.urls && c in s.urls {
      StampsOnRows(s.urls[code], page, now, ClickEvent(0, "", "", "", "", ""), hash, 0);
      assert S.RotateToken(S.Update(s, code, Stamp(page), now), c, hash).urls
        == S.Update(S.RotateToken(s, c, hash), code, Stamp(page), now).urls;
    }
  }

  lemma StampAndUnlink(s: S.State, code: string, page: Option<Preview>, now: Time, id: int)
    ensures S.DeleteAPIKey(S.Update(s, code, Stamp(page), now), id)
      == S.Update(S.DeleteAPIKey(s, id), code, Stamp(page), now)
  {
    hide S.ApplyUpdate;
    if code in s.urls && id in s.apiKeys {
      StampsOnRows(s.urls[code], page, now, ClickEvent(0, "", "", "", "", ""), [], id);
      assert S.DeleteAPIKey(S.Update(s, code, Stamp(page), now), id).urls
        == S.Update(S.DeleteAPIKey(s, id), code, Stamp(page), now).urls;
    }
  }

  /** Whatever the fetch gave, the row ends up stamped; and as nothing but the preview moves,
      it does not matter whether the unfurl comes before or after a click, a token rotation
      or a change to the API keys. */
  lemma StampCommutes(s: S.State, code: string, page: Option<Preview>, now: Time, op: S.Op)
    requires op.OpRecordClick? || op.OpRotateToken? || op.OpDeleteAPIKey? || op.OpTouchKey? || op.OpCreateAPIKey?
    ensures S.Step(S.Update(s, code, Stamp(page), now), op) == S.Update(S.Step(s, op), code, Stamp(page), now)
    ensures code in s.urls ==> S.Update(s, code, Stamp(page), now).urls[code].previewFetchedAt == Some(now)
  {
    match op
    case OpRecordClick(c, ev) => StampAndClick(s, code, page, now, c, ev);
    case OpRotateToken(c, hash) => StampAndRotate(s, code, page, now, c, hash);
    case OpDeleteAPIKey(id) => StampAndUnlink(s, code, page, now, id);
    case _ =>
  }

  /** The row after a fetch: what the page gave, each part in its place, or three empty strings. */
  lemma StampedRow(s: S.State, code: string, page: Option<Preview>, now: Time)
    requires code in s.urls
    ensures var before, after := s.urls[code], S.Update(s, code, Stamp(page), now).urls[code];
      && after.previewTitle == (if page.Some? then page.value.title else "")
      && after.previewImage == (if page.Some? then page.value.image else "")
      && after.previewDescription == (if page.Some? then page.value.description else "")
      && after.previewFetchedAt == Some(now)
      && after.originalUrl == before.originalUrl && after.expiresAt == before.expiresAt && after.tags == before.tags
      && after.maxClicks == before.maxClicks && after.clickCount == before.clickCount
      && after.passwordHash == before.passwordHash && after.passwordSalt == before.passwordSalt
      && after.webhookUrl == before.webhookUrl && after.webhookSecret == before.webhookSecret
      && after.destinations == before.destinations && after.ownerTokenHash == before.ownerTokenHash
  {
  }
}
