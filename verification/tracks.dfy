/** The track record the search reads keys from and copies into its result. */
module Tracks {
  import opened Wrappers
  import opened Keys

  /** `id` is an `Option<i32>` and `path` a `PathBuf` in the source; here
      the id is an unbounded integer and the path a string. */
  datatype Track = Track(id: Option<int>, name: string, path: string, key: Option<Key>)

  function Id(t: Track): (r: Option<int>) { t.id }

  function Name(t: Track): (r: string) { t.name }

  function PathOf(t: Track): (r: string) { t.path }

  function KeyOf(t: Track): (r: Option<Key>) { t.key }

  /** `Track::new`: every accessor gives back what was passed in. */
  function NewTrack(id: Option<int>, name: string, path: string, key: Option<Key>): (t: Track)
    ensures Id(t) == id
    ensures Name(t) == name
    ensures PathOf(t) == path
    ensures KeyOf(t) == key
  {
    Track(id, name, path, key)
  }

  /** `Track::from_pair`, given the already-parsed key: no id, an empty
      path, and the key present. */
  function FromPair(name: string, key: Key): (t: Track)
    ensures Id(t) == None
    ensures Name(t) == name
    ensures PathOf(t) == ""
    ensures KeyOf(t) == Some(key)
  {
    NewTrack(None, name, "", Some(key))
  }
}
