/**
 * Media entries of the site builder: directories, which keep an ordered list of their children's
 * keys and decide where sub-directories may be created, and images, whose shape code says whether
 * they are portrait, landscape or square.
 *
 * Persistence (the datastore put and the memcache copy made on every change), the access-control
 * list a new directory inherits and image serving URLs are outside this model: a directory object's
 * fields are the entity that would be stored.
 */
module Media {
  import opened Wrappers

  /** A datastore key: its kind and its numeric id. */
  datatype Key = Key(kind: string, id: int)

  const DIRECTORY_KIND := "media-dir"
  const IMAGE_KIND := "media-image"
  const MEDIA_TYPE_DIRECTORY := 0x01
  const MEDIA_TYPE_IMAGE := 0x02

  /** Kinds of parent whose directories may not hold sub-directories, `;`-terminated. */
  const SUBDIR_BLACKLIST := "blog-post;"
  /** Kinds of entity that may be the parent of a directory, `;`-terminated. */
  const PARENT_WHITELIST := "blog-post;media-dir;user;project;user-group;wiki;"

  /** `needle` sits in `hay` at position `i`. */
  predicate OccursAt(hay: string, needle: string, i: int)
  {
    0 <= i && i + |needle| <= |hay| && hay[i..i + |needle|] == needle
  }

  /** Java's `hay.contains(needle)`: `needle` occurs in `hay` as a contiguous piece. */
  predicate Contains(hay: string, needle: string)
  {
    exists i :: 0 <= i <= |hay| - |needle| && OccursAt(hay, needle, i)
  }

  /** A piece occurs at `i` when it matches there character by character. */
  lemma OccursByCharacters(hay: string, needle: string, i: int)
    requires 0 <= i && i + |needle| <= |hay|
    requires forall j :: 0 <= j < |needle| ==> hay[i + j] == needle[j]
    ensures OccursAt(hay, needle, i)
  {
    forall j | 0 <= j < |needle|
      ensures hay[i..i + |needle|][j] == needle[j]
    {
      assert hay[i..i + |needle|][j] == hay[i + j];
    }
  }

  /** A piece whose first character never appears in `hay` occurs nowhere in it. */
  lemma AbsentFirstCharacter(hay: string, needle: string)
    requires |needle| > 0 && needle[0] !in hay
    ensures !Contains(hay, needle)
  {
    forall i | 0 <= i <= |hay| - |needle|
      ensures !OccursAt(hay, needle, i)
    {
      assert hay[i..i + |needle|][0] == hay[i];
    }
  }

  /** Every kind on the parent whitelist passes the parent check. */
  lemma WhitelistedKinds()
    ensures Contains(PARENT_WHITELIST, "blog-post") && Contains(PARENT_WHITELIST, DIRECTORY_KIND)
    ensures Contains(PARENT_WHITELIST, "user") && Contains(PARENT_WHITELIST, "project")
    ensures Contains(PARENT_WHITELIST, "user-group") && Contains(PARENT_WHITELIST, "wiki")
  {
    OccursByCharacters(PARENT_WHITELIST, "blog-post", 0);
    DirectoryKindWhitelisted();
    OccursByCharacters(PARENT_WHITELIST, "user", 20);
    OccursByCharacters(PARENT_WHITELIST, "project", 25);
    OccursByCharacters(PARENT_WHITELIST, "user-group", 33);
    OccursByCharacters(PARENT_WHITELIST, "wiki", 44);
  }

  /**
   * The parent check is a substring test, not a list lookup: fragments of the list that are no
   * kind at all pass too, such as `dir`, `user-g`, `t;u` or the empty kind.
   */
  lemma WhitelistIsSubstringTest()
    ensures Contains(PARENT_WHITELIST, "dir") && Contains(PARENT_WHITELIST, "user-g")
    ensures Contains(PARENT_WHITELIST, "t;u") && Contains(PARENT_WHITELIST, "")
  {
    OccursByCharacters(PARENT_WHITELIST, "dir", 16);
    OccursByCharacters(PARENT_WHITELIST, "t;u", 31);
    OccursByCharacters(PARENT_WHITELIST, "user-g", 33);
    OccursByCharacters(PARENT_WHITELIST, "", 0);
  }

  /** Directories may be created under directories. */
  lemma DirectoryKindWhitelisted()
    ensures Contains(PARENT_WHITELIST, DIRECTORY_KIND)
  {
    OccursByCharacters(PARENT_WHITELIST, DIRECTORY_KIND, 10);
  }

  /** Likewise the blacklist refuses sub-directories under `blog-post`, but also under `blog`, `post` or the empty kind. */
  lemma BlacklistIsSubstringTest()
    ensures Contains(SUBDIR_BLACKLIST, "blog-post") && Contains(SUBDIR_BLACKLIST, "blog")
    ensures Contains(SUBDIR_BLACKLIST, "post") && Contains(SUBDIR_BLACKLIST, "")
  {
    OccursByCharacters(SUBDIR_BLACKLIST, "blog-post", 0);
    OccursByCharacters(SUBDIR_BLACKLIST, "blog", 0);
    OccursByCharacters(SUBDIR_BLACKLIST, "post", 5);
    OccursByCharacters(SUBDIR_BLACKLIST, "", 0);
  }

  /** Directories and users are not blacklisted, so they may hold sub-directories. */
  lemma BlacklistAdmits()
    ensures !Contains(SUBDIR_BLACKLIST, DIRECTORY_KIND) && !Contains(SUBDIR_BLACKLIST, "user")
  {
    AbsentFirstCharacter(SUBDIR_BLACKLIST, DIRECTORY_KIND);
    AbsentFirstCharacter(SUBDIR_BLACKLIST, "user");
  }

  // ---------------------------------------------------------------------------------------------
  // Child lists

  /** Java's `List.remove(Object)`: drop the first element equal to `k`, if there is one. */
  function RemoveFirst(s: seq<Key>, k: Key): seq<Key>
  {
    if s == [] then []
    else if s[0] == k then s[1..]
    else [s[0]] + RemoveFirst(s[1..], k)
  }

  /** A list without `k` is returned unchanged. */
  lemma {:induction false} RemoveFirstAbsent(s: seq<Key>, k: Key)
    requires k !in s
    ensures RemoveFirst(s, k) == s
  {
    if s != [] {
      RemoveFirstAbsent(s[1..], k);
    }
  }

  /** Removal takes out exactly the first occurrence and keeps the order of the rest. */
  lemma {:induction false} RemoveFirstPresent(s: seq<Key>, k: Key, i: int)
    requires 0 <= i < |s| && s[i] == k && k !in s[..i]
    ensures RemoveFirst(s, k) == s[..i] + s[i + 1..]
  {
    if i > 0 {
      assert s[0] == s[..i][0];
      assert s[1..][..i - 1] == s[1..i];
      assert k !in s[1..][..i - 1];
      RemoveFirstPresent(s[1..], k, i - 1);
      assert s[..i] == [s[0]] + s[1..][..i - 1];
      assert s[i + 1..] == s[1..][i..];
    }
  }

  /** Removal takes one copy of `k` out of the list's multiset of keys, and nothing else. */
  lemma {:induction false} RemoveFirstMultiset(s: seq<Key>, k: Key)
    ensures multiset(RemoveFirst(s, k)) == multiset(s) - multiset{k}
  {
    if s != [] {
      assert s == [s[0]] + s[1..];
      assert multiset(s) == multiset{s[0]} + multiset(s[1..]);
      if s[0] != k {
        RemoveFirstMultiset(s[1..], k);
        assert multiset(RemoveFirst(s, k)) == multiset{s[0]} + multiset(RemoveFirst(s[1..], k));
      }
    }
  }

  /** Removing a key that was appended to a list without it gives the list back. */
  lemma {:induction false} RemoveFirstUndoesAppend(s: seq<Key>, k: Key)
    requires k !in s
    ensures RemoveFirst(s + [k], k) == s
  {
    if s != [] {
      assert (s + [k])[1..] == s[1..] + [k];
      RemoveFirstUndoesAppend(s[1..], k);
    }
  }

  /** A child handed to `addChildEntry`: its media type comes from its class. */
  datatype MediaEntry = DirectoryEntry(key: Key) | ImageEntry(key: Key)
  {
    function GetType(): int
    {
      if DirectoryEntry? then MEDIA_TYPE_DIRECTORY else MEDIA_TYPE_IMAGE
    }
  }

  /** The value of a directory's `media-dir-parent` property. */
  datatype ParentProperty =
    | ParentId(id: int)    // the parent key's numeric id, as the creating constructor stores it
    | ParentKey(key: Key)  // the parent's key itself

  /** A directory (`MediaDirectory`) over its entity's key and properties. */
  class MediaDirectory {
    const key: Key
    const name: string
    const parent: ParentProperty
    /** The `media-dir-children` property: absent until the first child is added or removed. */
    var children: Option<seq<Key>>

    ghost predicate Valid()
      reads this
    {
      key.kind == DIRECTORY_KIND
    }

    constructor (key: Key, name: string, parent: ParentProperty, children: Option<seq<Key>>)
      requires key.kind == DIRECTORY_KIND
      ensures Valid()
      ensures this.key == key && this.name == name && this.parent == parent && this.children == children
    {
      this.key, this.name, this.parent, this.children := key, name, parent, children;
    }

    /** `getType()`: a directory entry. */
    function GetType(): (t: int)
      ensures t == MEDIA_TYPE_DIRECTORY
    {
      MEDIA_TYPE_DIRECTORY
    }

    /** This directory as a child entry of another. */
    function AsEntry(): (e: MediaEntry)
      reads this
      ensures e.GetType() == GetType() && e.key == key
    {
      DirectoryEntry(key)
    }

    /** `listChildKeys()`: the stored children, or none when the property is absent. */
    function ListChildKeys(): (keys: seq<Key>)
      reads this
      ensures children.None? ==> keys == []
      ensures children.Some? ==> keys == children.value
    {
      if children.Some? then children.value else []
    }

    /** `getParentKey()`: the parent property cast to a key; a stored id makes the cast throw. */
    function GetParentKey(): (r: Result<Key, string>)
      ensures r.Ok? <==> parent.ParentKey?
      ensures r.Ok? ==> r.value == parent.key
    {
      match parent
      case ParentKey(k) => Ok(k)
      case ParentId(_) => Err("ClassCastException: Long cannot be cast to Key")
    }

    /** `supportsSubDirectories()`: false exactly when the parent's kind is a substring of the blacklist. */
    function SupportsSubDirectories(): (r: Result<bool, string>)
      ensures r.Err? <==> GetParentKey().Err?
      ensures r.Ok? ==> (r.value <==> !Contains(SUBDIR_BLACKLIST, parent.key.kind))
    {
      match GetParentKey()
      case Ok(k) => Ok(!Contains(SUBDIR_BLACKLIST, k.kind))
      case Err(e) => Err(e)
    }

    /**
     * `addChildEntry(child)`: a directory child is refused (or the parent lookup throws) when
     * sub-directories are not supported; otherwise the child's key goes to the end of the list,
     * after every key already there, duplicates included.
     */
    method AddChildEntry(child: MediaEntry) returns (r: Result<(), string>)
      modifies this
      ensures child.GetType() != MEDIA_TYPE_DIRECTORY ==> r.Ok?
      ensures child.GetType() == MEDIA_TYPE_DIRECTORY ==> (r.Ok? <==> SupportsSubDirectories() == Ok(true))
      ensures r.Ok? ==> children == Some(old(ListChildKeys()) + [child.key])
      ensures r.Err? ==> children == old(children)
    {
      if child.GetType() == MEDIA_TYPE_DIRECTORY {
        var supported := SupportsSubDirectories();
        if supported.Err? {
          return Err(supported.error);
        }
        if !supported.value {
          return Err("IllegalArgumentException: this media-directory does not support sub-directories");
        }
      }
      children := Some(ListChildKeys() + [child.key]);
      return Ok(());
    }

    /** `removeChildEntry(child)`: drops the first occurrence of the key and stores the list. */
    method RemoveChildEntry(child: Key)
      modifies this
      ensures children == Some(RemoveFirst(old(ListChildKeys()), child))
      ensures |ListChildKeys()| == |old(ListChildKeys())| - (if child in old(ListChildKeys()) then 1 else 0)
    {
      RemoveFirstMultiset(ListChildKeys(), child);
      children := Some(RemoveFirst(ListChildKeys(), child));
      assert |multiset(ListChildKeys())| == |ListChildKeys()|;
    }
  }

  /** The stored form of a directory entity. */
  datatype DirectoryEntity = DirectoryEntity(key: Key, name: string, parent: ParentProperty, children: Option<seq<Key>>)

  /** `new MediaDirectory(entity)`: refuses an entity of another kind. */
  method DirectoryFromEntity(e: DirectoryEntity) returns (r: Result<MediaDirectory, string>)
    ensures r.Err? <==> e.key.kind != DIRECTORY_KIND
    ensures r.Ok? ==> fresh(r.value) && r.value.Valid() && r.value.key == e.key && r.value.name == e.name
                      && r.value.parent == e.parent && r.value.children == e.children
  {
    if e.key.kind != DIRECTORY_KIND {
      return Err("IllegalArgumentException: the given Entity is of the wrong kind");
    }
    var d := new MediaDirectory(e.key, e.name, e.parent, e.children);
    return Ok(d);
  }

  /**
   * `new MediaDirectory(key)`: refuses a key of another kind, then takes the entity read from
   * memcache or the datastore (`stored` stands for both, and holds every entity under its own key)
   * without checking its kind again; a missing entity throws EntityNotFoundException.
   */
  method DirectoryFromKey(key: Key, stored: map<Key, DirectoryEntity>) returns (r: Result<MediaDirectory, string>)
    requires forall k :: k in stored ==> stored[k].key == k
    ensures r.Ok? <==> key.kind == DIRECTORY_KIND && key in stored
    ensures r.Ok? ==> fresh(r.value) && r.value.Valid() && r.value.key == key
                      && r.value.name == stored[key].name && r.value.parent == stored[key].parent
                      && r.value.children == stored[key].children
  {
    if key.kind != DIRECTORY_KIND {
      return Err("IllegalArgumentException: cannot create MediaDirectory from non-media-directory Key");
    }
    if key !in stored {
      return Err("EntityNotFoundException");
    }
    var e := stored[key];
    var d := new MediaDirectory(e.key, e.name, e.parent, e.children);
    return Ok(d);
  }

  /** The entity a new directory is created under: an existing directory, or any other entity. */
  datatype ParentEntity = DirectoryParent(dir: MediaDirectory) | OtherParent(key: Key)
  {
    ghost predicate Valid()
      reads if DirectoryParent? then {dir} else {}
    {
      if DirectoryParent? then dir.Valid() else key.kind != DIRECTORY_KIND
    }

    function ParentKeyOf(): Key
      reads if DirectoryParent? then {dir} else {}
    {
      if DirectoryParent? then dir.key else key
    }
  }

  /**
   * `new MediaDirectory(name, parent)` as written: checks the parent's kind against the whitelist,
   * stores the parent key's numeric id as the parent property and, under a directory, adds itself
   * to that directory's children. `key` is the key the new directory's entity receives.
   */
  method CreateDirectory(name: string, key: Key, parent: ParentEntity) returns (r: Result<MediaDirectory, string>)
    requires parent.Valid() && key.kind == DIRECTORY_KIND
    modifies if parent.DirectoryParent? then {parent.dir} else {}
    ensures !Contains(PARENT_WHITELIST, old(parent.ParentKeyOf()).kind) ==> r.Err?
    ensures r.Ok? ==> fresh(r.value) && r.value.Valid() && r.value.key == key
                      && r.value.name == name && r.value.children == None
                      && r.value.ListChildKeys() == []
                      && r.value.parent == ParentId(old(parent.ParentKeyOf()).id)
                      && r.value.SupportsSubDirectories().Err?
    ensures parent.OtherParent? ==> (r.Ok? <==> Contains(PARENT_WHITELIST, parent.key.kind))
    ensures parent.DirectoryParent? ==> (r.Ok? <==> parent.dir.SupportsSubDirectories() == Ok(true))
    ensures parent.DirectoryParent? && parent.dir.parent.ParentId? ==> r.Err?
    ensures parent.DirectoryParent? && r.Ok? ==>
              parent.dir.children == Some(old(parent.dir.ListChildKeys()) + [key])
    ensures parent.DirectoryParent? && r.Err? ==> parent.dir.children == old(parent.dir.children)
  {
    var parentKey := parent.ParentKeyOf();
    DirectoryKindWhitelisted();
    if !Contains(PARENT_WHITELIST, parentKey.kind) {
      return Err("IllegalArgumentException: MediaDirectory cannot be child of a " + parentKey.kind);
    }
    var d := new MediaDirectory(key, name, ParentId(parentKey.id), None);
    if parent.DirectoryParent? {
      var added := parent.dir.AddChildEntry(d.AsEntry());
      if added.Err? {
        return Err(added.error);
      }
    }
    return Ok(d);
  }

  /**
   * `new MediaDirectory(name, parent)` storing the parent's key, as `getParentKey` expects: a new
   * directory supports sub-directories exactly when its parent's kind is not blacklisted, and a
   * directory created under it is added to its children.
   */
  method CreateDirectoryIntended(name: string, key: Key, parent: ParentEntity) returns (r: Result<MediaDirectory, string>)
    requires parent.Valid() && key.kind == DIRECTORY_KIND
    modifies if parent.DirectoryParent? then {parent.dir} else {}
    ensures !Contains(PARENT_WHITELIST, old(parent.ParentKeyOf()).kind) ==> r.Err?
    ensures r.Ok? ==> fresh(r.value) && r.value.Valid() && r.value.key == key
                      && r.value.name == name && r.value.children == None
                      && r.value.ListChildKeys() == []
                      && r.value.SupportsSubDirectories()
                         == Ok(!Contains(SUBDIR_BLACKLIST, old(parent.ParentKeyOf()).kind))
    ensures parent.DirectoryParent? && r.Ok? ==>
              parent.dir.children == Some(old(parent.dir.ListChildKeys()) + [key])
    ensures parent.OtherParent? ==> (r.Ok? <==> Contains(PARENT_WHITELIST, parent.key.kind))
    ensures parent.DirectoryParent? ==> (r.Ok? <==> parent.dir.SupportsSubDirectories() == Ok(true))
    ensures parent.DirectoryParent? && r.Err? ==> parent.dir.children == old(parent.dir.children)
  {
    var parentKey := parent.ParentKeyOf();
    DirectoryKindWhitelisted();
    if !Contains(PARENT_WHITELIST, parentKey.kind) {
      return Err("IllegalArgumentException: MediaDirectory cannot be child of a " + parentKey.kind);
    }
    var d := new MediaDirectory(key, name, ParentKey(parentKey), None);
    if parent.DirectoryParent? {
      var added := parent.dir.AddChildEntry(d.AsEntry());
      if added.Err? {
        return Err(added.error);
      }
    }
    return Ok(d);
  }

  // ---------------------------------------------------------------------------------------------
  // Images

  const IMAGE_PORTRAIT := 0x0100
  const IMAGE_9X16 := 0x0101
  const IMAGE_3X4 := 0x0102
  const IMAGE_LANDSCAPE := 0x0200
  const IMAGE_16X9 := 0x0201
  const IMAGE_4X3 := 0x0202
  const IMAGE_SQUARE := 0x0300

  /** An image entry (`MediaImage`) over its entity's key and properties. */
  datatype MediaImage = MediaImage(key: Key, name: string, parent: Key, objectName: string, shape: int,
                                  servingUrl: string)
  {
    /** `isPortrait()`: a shape code from the portrait group. */
    predicate IsPortrait()
    {
      IMAGE_PORTRAIT <= shape < IMAGE_LANDSCAPE
    }

    /** `isLandscape()`: a shape code from the landscape group. */
    predicate IsLandscape()
    {
      IMAGE_LANDSCAPE <= shape < IMAGE_SQUARE
    }

    /** `isSquare()`: exactly the square code. */
    predicate IsSquare()
    {
      shape == IMAGE_SQUARE
    }

    /** `getType()`: an image entry. */
    function GetType(): (t: int)
      ensures t == MEDIA_TYPE_IMAGE
    {
      MEDIA_TYPE_IMAGE
    }
  }

  /** At most one shape predicate holds, and each documented code satisfies exactly the one its name says. */
  lemma ShapesExclusive(img: MediaImage)
    ensures !(img.IsPortrait() && img.IsLandscape()) && !(img.IsPortrait() && img.IsSquare())
    ensures !(img.IsLandscape() && img.IsSquare())
    ensures img.shape in {IMAGE_PORTRAIT, IMAGE_9X16, IMAGE_3X4} ==> img.IsPortrait()
    ensures img.shape in {IMAGE_LANDSCAPE, IMAGE_16X9, IMAGE_4X3} ==> img.IsLandscape()
    ensures img.shape == IMAGE_SQUARE ==> img.IsSquare()
    ensures img.shape < IMAGE_PORTRAIT || img.shape > IMAGE_SQUARE ==>
              !img.IsPortrait() && !img.IsLandscape() && !img.IsSquare()
  {
  }

  /** The stored form of an image entity. */
  datatype ImageEntity = ImageEntity(key: Key, name: string, parent: Key, objectName: string, shape: int,
                                    servingUrl: string)

  /** `new MediaImage(entity)`: refuses an entity of another kind. */
  function ImageFromEntity(e: ImageEntity): (r: Result<MediaImage, string>)
    ensures r.Err? <==> e.key.kind != IMAGE_KIND
    ensures r.Ok? ==> r.value.key == e.key && r.value.name == e.name && r.value.parent == e.parent
                      && r.value.objectName == e.objectName
                      && r.value.shape == e.shape && r.value.servingUrl == e.servingUrl
  {
    if e.key.kind != IMAGE_KIND then Err("IllegalArgumentException: the given Entity is of the wrong kind")
    else Ok(MediaImage(e.key, e.name, e.parent, e.objectName, e.shape, e.servingUrl))
  }

  /** `new MediaImage(key)`: refuses a key of another kind; a missing entity throws EntityNotFoundException. */
  function ImageFromKey(k: Key, stored: map<Key, ImageEntity>): (r: Result<MediaImage, string>)
    ensures r.Ok? <==> k.kind == IMAGE_KIND && k in stored
    ensures r.Ok? ==> r.value.key == stored[k].key && r.value.name == stored[k].name
                      && r.value.parent == stored[k].parent && r.value.objectName == stored[k].objectName
                      && r.value.shape == stored[k].shape && r.value.servingUrl == stored[k].servingUrl
  {
    if k.kind != IMAGE_KIND then Err("IllegalArgumentException: the given Key is of the wrong kind")
    else if k !in stored then Err("EntityNotFoundException")
    else
      var e := stored[k];
      Ok(MediaImage(e.key, e.name, e.parent, e.objectName, e.shape, e.servingUrl))
  }
}
