/** The data migration that rewrites legacy appointment status codes
    (`apps/appointments/migrations/0006_normalize_legacy_statuses.py`). The
    status column is modelled as raw text per appointment id, since legacy rows
    hold codes outside the current seven. The reverse migration does nothing. */
module LegacyStatuses {
  import opened Base
  import opened AppointmentModels

  /** One `UPDATE ... SET status = to WHERE status = from`. */
  datatype Rewrite = Rewrite(from: string, to: string)

  /** `status_map`, in the order the migration applies it. */
  const LEGACY_MAP: seq<Rewrite> := [Rewrite("CI", "WD"), Rewrite("CH_I", "WD"), Rewrite("CNC", "CN")]

  /** What one update does to one status. */
  function RewriteCode(w: Rewrite, code: string): string {
    if code == w.from then w.to else code
  }

  /** One update over the whole table: matching rows change, the others and
      the set of rows stay. */
  function ApplyRewrite(rows: map<nat, string>, w: Rewrite): (r: map<nat, string>)
    ensures r.Keys == rows.Keys
    ensures forall k :: k in rows ==> r[k] == RewriteCode(w, rows[k])
  {
    map k | k in rows :: RewriteCode(w, rows[k])
  }

  /** The updates in order. */
  function ApplyRewrites(rows: map<nat, string>, ws: seq<Rewrite>): (r: map<nat, string>)
    ensures r.Keys == rows.Keys
    decreases |ws|
  {
    if ws == [] then rows else ApplyRewrites(ApplyRewrite(rows, ws[0]), ws[1..])
  }

  /** The updates in order, applied to a single status. */
  function RewriteAll(ws: seq<Rewrite>, code: string): string
    decreases |ws|
  {
    if ws == [] then code else RewriteAll(ws[1..], RewriteCode(ws[0], code))
  }

  /** The statement-by-statement migration acts on every row independently. */
  lemma {:induction false} RewritesArePointwise(rows: map<nat, string>, ws: seq<Rewrite>)
    ensures forall k :: k in rows ==> ApplyRewrites(rows, ws)[k] == RewriteAll(ws, rows[k])
    decreases |ws|
  {
    if ws != [] {
      RewritesArePointwise(ApplyRewrite(rows, ws[0]), ws[1..]);
    }
  }

  /** The reference mapping of a single status code. */
  function Normalize(code: string): (r: string)
    ensures code in {"CI", "CH_I"} ==> r == "WD"
    ensures code == "CNC" ==> r == "CN"
    ensures code !in {"CI", "CH_I", "CNC"} ==> r == code
  {
    RewriteAll(LEGACY_MAP, code)
  }

  /** `normalize_statuses`. */
  function NormalizeStatuses(rows: map<nat, string>): (r: map<nat, string>)
    ensures r.Keys == rows.Keys
    ensures forall k :: k in rows ==> r[k] == Normalize(rows[k])
  {
    RewritesArePointwise(rows, LEGACY_MAP);
    ApplyRewrites(rows, LEGACY_MAP)
  }

  /** After the migration no row holds a legacy code, and every row that held a
      legacy code or one of the seven codes holds one of the seven codes. */
  lemma NoLegacyCodesRemain(rows: map<nat, string>)
    ensures forall k :: k in rows ==> NormalizeStatuses(rows)[k] !in {"CI", "CH_I", "CNC"}
    ensures forall k :: k in rows && (rows[k] in {"CI", "CH_I", "CNC"} || ParseStatus(rows[k]).Some?) ==>
              ParseStatus(NormalizeStatuses(rows)[k]).Some?
  {
  }

  /** Rows holding one of the seven current codes are left alone. */
  lemma CurrentCodesUntouched(rows: map<nat, string>)
    ensures forall k :: k in rows && ParseStatus(rows[k]).Some? ==> NormalizeStatuses(rows)[k] == rows[k]
  {
  }

  /** Running the migration twice is the same as running it once, because no
      target code is itself a legacy code. */
  lemma NormalizeIdempotent(rows: map<nat, string>)
    ensures NormalizeStatuses(NormalizeStatuses(rows)) == NormalizeStatuses(rows)
  {
  }
}
