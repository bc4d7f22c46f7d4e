/**
 * The translations file the update scripts read: a JSON list of objects,
 * each holding string fields such as `segment_id`, `old_translation` and
 * `new_translation` (or `old_text` and `new_text`), or an object that wraps
 * that list under the key `translations`.
 */
module Translations {
  import opened Wrappers

  /** One translation entry: its string-valued fields by key. */
  type Record = map<string, string>

  /** `entry.get(key)`. */
  function Get(rec: Record, key: string): (r: Option<string>)
    ensures r.Some? <==> key in rec
    ensures r.Some? ==> r.value == rec[key]
  {
    if key in rec then Some(rec[key]) else None
  }

  /** `entry.get(key, default)`. */
  function GetOr(rec: Record, key: string, default: string): (r: string)
    ensures key in rec ==> r == rec[key]
    ensures key !in rec ==> r == default
  {
    Get(rec, key).UnwrapOr(default)
  }

  /** The top level of the file. An object without the `translations` key is kept only
      with its number of keys, since the scripts iterate over those keys. */
  datatype TranslationsFile =
    | ListFile(items: seq<Record>)
    | WrappedList(items: seq<Record>)
    | OtherObject(keyCount: nat)

  /** `data.get('translations', data) if isinstance(data, dict) else data`, followed by
      the iteration over it: iterating over a non-empty object yields its keys, which
      are strings, and the first `.get` on one of them raises. */
  function TranslationList(file: TranslationsFile): Result<seq<Record>, string>
  {
    match file
    case ListFile(items) => Success(items)
    case WrappedList(items) => Success(items)
    case OtherObject(n) => if n == 0 then Success([]) else Failure("'str' object has no attribute 'get'")
  }

  /** The counts an update script returns: entries applied and entries that failed. */
  datatype Tally = Tally(success: nat, fail: nat)
}
