/** backend/pkg/cache/keys.go: the cache keys of the scoreboards. */
module ScoreboardKeys {
  import opened Prelude

  const KEY_SCOREBOARD := "scoreboard"
  const KEY_SCOREBOARD_FROZEN := "scoreboard:frozen"
  const KEY_COMPETITION := "competition"
  const KEY_APP_SETTINGS := "app_settings"
  const BRACKET_PREFIX := "scoreboard:bracket:"
  const BRACKET_FROZEN_PREFIX := "scoreboard:frozen:bracket:"

  /** The boards the application caches. A bracket is named by the text of its UUID. */
  datatype BoardId = Overall | Frozen | Bracket(bracket: string) | BracketFrozen(bracket: string)

  function KeyScoreboardBracket(bracket: string): string {
    BRACKET_PREFIX + bracket
  }

  function KeyScoreboardBracketFrozen(bracket: string): string {
    BRACKET_FROZEN_PREFIX + bracket
  }

  function Key(id: BoardId): string {
    match id
    case Overall => KEY_SCOREBOARD
    case Frozen => KEY_SCOREBOARD_FROZEN
    case Bracket(b) => KeyScoreboardBracket(b)
    case BracketFrozen(b) => KeyScoreboardBracketFrozen(b)
  }

  /** The board a key stands for, read back from its text. */
  function BoardOfKey(key: string): Option<BoardId> {
    if key == KEY_SCOREBOARD then Some(Overall)
    else if key == KEY_SCOREBOARD_FROZEN then Some(Frozen)
    else if BRACKET_PREFIX <= key then Some(Bracket(key[|BRACKET_PREFIX|..]))
    else if BRACKET_FROZEN_PREFIX <= key then Some(BracketFrozen(key[|BRACKET_FROZEN_PREFIX|..]))
    else None
  }

  lemma KeysAreReadBack(id: BoardId)
    ensures BoardOfKey(Key(id)) == Some(id)
  {
    match id {
      case Overall =>
      case Frozen =>
      case Bracket(b) =>
        assert Key(id)[|BRACKET_PREFIX|..] == b;
      case BracketFrozen(b) =>
        assert Key(id)[|BRACKET_FROZEN_PREFIX|..] == b;
        assert Key(id)[11] == 'f' && BRACKET_PREFIX[11] == 'b';
    }
  }

  /** No two boards share a key, whatever text names their brackets; neither shares one with the other
      two constant keys. */
  lemma KeysAreDistinct(x: BoardId, y: BoardId)
    ensures Key(x) == Key(y) ==> x == y
    ensures Key(x) != KEY_COMPETITION && Key(x) != KEY_APP_SETTINGS
  {
    KeysAreReadBack(x);
    KeysAreReadBack(y);
    assert BoardOfKey(KEY_COMPETITION) == None by {
      assert KEY_COMPETITION[0] == 'c' && BRACKET_PREFIX[0] == 's' && BRACKET_FROZEN_PREFIX[0] == 's';
    }
    assert BoardOfKey(KEY_APP_SETTINGS) == None by {
      assert KEY_APP_SETTINGS[0] == 'a' && BRACKET_PREFIX[0] == 's' && BRACKET_FROZEN_PREFIX[0] == 's';
    }
  }
}
